/** The distance behind "did you mean": weighted, blind to case at half price, with neighbouring
    characters exchanged. The three-row loop computes half of it. */
module EditDistance {
  import opened Arithmetic

  function ToLower(c: char): char {
    if 'A' <= c <= 'Z' then (c as int + 32) as char else c
  }

  /** What it costs to put one character for another. */
  function Substitution(a: char, b: char): nat {
    if a == b then 0 else if ToLower(a) == ToLower(b) then 1 else 2
  }

  /** The last two characters of the prefixes are exchanged. */
  predicate Exchanged(s: string, i: nat, t: string, j: nat)
    requires i <= |s| && j <= |t|
  {
    i > 1 && j > 1 && ToLower(s[i - 1]) == ToLower(t[j - 2]) && ToLower(s[i - 2]) == ToLower(t[j - 1])
  }

  /** The distance of the prefixes of length `i` and `j`. */
  function Distance(s: string, i: nat, t: string, j: nat): nat
    requires i <= |s| && j <= |t|
    decreases i + j
  {
    if i == 0 then 2 * j
    else if j == 0 then 2 * i
    else
      var edited := Min(Min(Distance(s, i - 1, t, j) + 2, Distance(s, i, t, j - 1) + 2),
                        Distance(s, i - 1, t, j - 1) + Substitution(s[i - 1], t[j - 1]));
      if Exchanged(s, i, t, j) then Min(edited, Distance(s, i - 2, t, j - 2) + 2) else edited
  }

  /** How a distance depends on the ones before it. */
  lemma Recurrence(s: string, i: nat, t: string, j: nat)
    requires i < |s| && j < |t|
    ensures var best := Min(Min(Distance(s, i, t, j + 1) + 2, Distance(s, i + 1, t, j) + 2),
                            Distance(s, i, t, j) + Substitution(s[i], t[j]));
            Distance(s, i + 1, t, j + 1)
            == if Exchanged(s, i + 1, t, j + 1) then Min(best, Distance(s, i - 1, t, j - 1) + 2) else best
  {
    hide ToLower, Substitution, Min;
  }

  // ----- what the distance means -----

  datatype Edit = Insert | Delete | Substitute | Exchange

  /** The script turns the prefix of `s` of length `i` into the prefix of `t` of length `j`. */
  predicate Edits(s: string, i: nat, t: string, j: nat, script: seq<Edit>)
    requires i <= |s| && j <= |t|
    decreases |script|
  {
    if script == [] then i == 0 && j == 0
    else
      var before := script[..|script| - 1];
      match script[|script| - 1]
      case Insert => j > 0 && Edits(s, i, t, j - 1, before)
      case Delete => i > 0 && Edits(s, i - 1, t, j, before)
      case Substitute => i > 0 && j > 0 && Edits(s, i - 1, t, j - 1, before)
      case Exchange => Exchanged(s, i, t, j) && Edits(s, i - 2, t, j - 2, before)
  }

  function Cost(s: string, i: nat, t: string, j: nat, script: seq<Edit>): nat
    requires i <= |s| && j <= |t| && Edits(s, i, t, j, script)
    decreases |script|
  {
    if script == [] then 0
    else
      var before := script[..|script| - 1];
      match script[|script| - 1]
      case Insert => Cost(s, i, t, j - 1, before) + 2
      case Delete => Cost(s, i - 1, t, j, before) + 2
      case Substitute => Cost(s, i - 1, t, j - 1, before) + Substitution(s[i - 1], t[j - 1])
      case Exchange => Cost(s, i - 2, t, j - 2, before) + 2
  }

  /** No script is cheaper than the distance. */
  lemma {:induction false} NoScriptIsCheaper(s: string, i: nat, t: string, j: nat, script: seq<Edit>)
    requires i <= |s| && j <= |t| && Edits(s, i, t, j, script)
    ensures Cost(s, i, t, j, script) >= Distance(s, i, t, j)
    decreases |script|
  {
    if script != [] {
      var before := script[..|script| - 1];
      match script[|script| - 1]
      case Insert => NoScriptIsCheaper(s, i, t, j - 1, before);
      case Delete => NoScriptIsCheaper(s, i - 1, t, j, before);
      case Substitute => NoScriptIsCheaper(s, i - 1, t, j - 1, before);
      case Exchange => NoScriptIsCheaper(s, i - 2, t, j - 2, before);
    }
  }

  /** The last edit takes the prefixes of length `k` and `l` to those of length `i` and `j`. */
  predicate Leads(s: string, k: nat, i: nat, t: string, l: nat, j: nat, last: Edit)
    requires i <= |s| && j <= |t|
  {
    match last
    case Insert => j > 0 && k == i && l == j - 1
    case Delete => i > 0 && k == i - 1 && l == j
    case Substitute => i > 0 && j > 0 && k == i - 1 && l == j - 1
    case Exchange => Exchanged(s, i, t, j) && k == i - 2 && l == j - 2
  }

  function Price(s: string, i: nat, t: string, j: nat, last: Edit): nat
    requires last.Substitute? ==> 0 < i <= |s| && 0 < j <= |t|
  {
    if last.Substitute? then Substitution(s[i - 1], t[j - 1]) else 2
  }

  lemma Extended(s: string, k: nat, i: nat, t: string, l: nat, j: nat, before: seq<Edit>, last: Edit)
    requires i <= |s| && j <= |t| && Leads(s, k, i, t, l, j, last) && Edits(s, k, t, l, before)
    ensures Edits(s, i, t, j, before + [last])
    ensures Cost(s, i, t, j, before + [last]) == Cost(s, k, t, l, before) + Price(s, i, t, j, last)
  {
    hide Exchanged, Substitution;
    var script := before + [last];
    assert script[..|script| - 1] == before && script[|script| - 1] == last;
  }

  /** The distance is reached by a last edit. */
  lemma LastEdit(s: string, i: nat, t: string, j: nat) returns (last: Edit, k: nat, l: nat)
    requires i <= |s| && j <= |t| && i + j > 0
    ensures Leads(s, k, i, t, l, j, last) && k + l < i + j
    ensures Distance(s, i, t, j) == Distance(s, k, t, l) + Price(s, i, t, j, last)
  {
    var d := Distance(s, i, t, j);
    if j > 0 && d == Distance(s, i, t, j - 1) + 2 {
      last, k, l := Insert, i, j - 1;
    } else if i > 0 && d == Distance(s, i - 1, t, j) + 2 {
      last, k, l := Delete, i - 1, j;
    } else if i > 0 && j > 0 && d == Distance(s, i - 1, t, j - 1) + Substitution(s[i - 1], t[j - 1]) {
      last, k, l := Substitute, i - 1, j - 1;
    } else {
      last, k, l := Exchange, i - 2, j - 2;
    }
  }

  /** Some script costs just the distance. */
  lemma {:induction false} CheapestScript(s: string, i: nat, t: string, j: nat) returns (script: seq<Edit>)
    requires i <= |s| && j <= |t|
    ensures Edits(s, i, t, j, script) && Cost(s, i, t, j, script) == Distance(s, i, t, j)
    decreases i + j
  {
    if i == 0 && j == 0 {
      script := [];
    } else {
      hide Distance, Edits, Cost;
      var last, k, l := LastEdit(s, i, t, j);
      var before := CheapestScript(s, k, t, l);
      Extended(s, k, i, t, l, j, before, last);
      script := before + [last];
    }
  }

  function Mirrored(script: seq<Edit>): seq<Edit> {
    if script == [] then []
    else
      Mirrored(script[..|script| - 1])
      + [match script[|script| - 1] { case Insert => Delete case Delete => Insert case edit => edit }]
  }

  /** The script that goes back costs as much. */
  lemma {:induction false} MirroredCosts(s: string, i: nat, t: string, j: nat, script: seq<Edit>)
    requires i <= |s| && j <= |t| && Edits(s, i, t, j, script)
    ensures Edits(t, j, s, i, Mirrored(script)) && Cost(t, j, s, i, Mirrored(script)) == Cost(s, i, t, j, script)
    decreases |script|
  {
    hide ToLower;
    if script != [] {
      var before := script[..|script| - 1];
      var last := Mirrored(script)[|Mirrored(before)|];
      assert (Mirrored(before) + [last])[..|Mirrored(before)|] == Mirrored(before);
      match script[|script| - 1]
      case Insert => MirroredCosts(s, i, t, j - 1, before);
      case Delete => MirroredCosts(s, i - 1, t, j, before);
      case Substitute => MirroredCosts(s, i - 1, t, j - 1, before);
      case Exchange => MirroredCosts(s, i - 2, t, j - 2, before);
    }
  }

  /** Distance does not depend on the direction. */
  lemma DistanceSymmetric(s: string, i: nat, t: string, j: nat)
    requires i <= |s| && j <= |t|
    ensures Distance(s, i, t, j) == Distance(t, j, s, i)
  {
    var there := CheapestScript(s, i, t, j);
    MirroredCosts(s, i, t, j, there);
    NoScriptIsCheaper(t, j, s, i, Mirrored(there));
    var back := CheapestScript(t, j, s, i);
    MirroredCosts(t, j, s, i, back);
    NoScriptIsCheaper(s, i, t, j, Mirrored(back));
  }

  /** A distance is at least what each of its ways comes to. */
  lemma AtLeast(s: string, i: nat, t: string, j: nat, bound: nat)
    requires 0 < i <= |s| && 0 < j <= |t|
    requires Distance(s, i - 1, t, j) + 2 >= bound && Distance(s, i, t, j - 1) + 2 >= bound
    requires Distance(s, i - 1, t, j - 1) + Substitution(s[i - 1], t[j - 1]) >= bound
    requires i > 1 && j > 1 ==> Distance(s, i - 2, t, j - 2) + 2 >= bound
    ensures Distance(s, i, t, j) >= bound
  {
    hide ToLower, Substitution;
  }

  /** What the missing characters cost. */
  function Missing(i: nat, j: nat): nat {
    if i <= j then 2 * (j - i) else 2 * (i - j)
  }

  lemma MissingSteps(i: nat, j: nat)
    requires i > 0 && j > 0
    ensures Missing(i - 1, j) + 2 >= Missing(i, j) && Missing(i, j - 1) + 2 >= Missing(i, j)
    ensures Missing(i - 1, j - 1) == Missing(i, j) && (i > 1 && j > 1 ==> Missing(i - 2, j - 2) == Missing(i, j))
  {
  }

  lemma AtTheStart(s: string, i: nat, t: string, j: nat)
    requires i <= |s| && j <= |t| && (i == 0 || j == 0)
    ensures Distance(s, i, t, j) == Missing(i, j)
  {
  }

  /** Each missing character costs two. */
  lemma {:induction false} DistanceCountsLengths(s: string, i: nat, t: string, j: nat)
    requires i <= |s| && j <= |t|
    ensures Distance(s, i, t, j) >= Missing(i, j)
    decreases i + j
  {
    hide Distance, Missing, Substitution;
    if i == 0 || j == 0 {
      AtTheStart(s, i, t, j);
    } else {
      MissingSteps(i, j);
      DistanceCountsLengths(s, i - 1, t, j);
      DistanceCountsLengths(s, i, t, j - 1);
      DistanceCountsLengths(s, i - 1, t, j - 1);
      if i > 1 && j > 1 {
        DistanceCountsLengths(s, i - 2, t, j - 2);
      }
      AtLeast(s, i, t, j, Missing(i, j));
    }
  }

  /** Only equal prefixes are at distance zero. */
  lemma {:induction false} DistanceZero(s: string, i: nat, t: string, j: nat)
    requires i <= |s| && j <= |t|
    ensures Distance(s, i, t, j) == 0 <==> s[..i] == t[..j]
    decreases i + j
  {
    if i > 0 && j > 0 {
      DistanceZero(s, i - 1, t, j - 1);
      assert s[..i] == s[..i - 1] + [s[i - 1]] && t[..j] == t[..j - 1] + [t[j - 1]];
      if s[..i] == t[..j] {
        assert s[..i][i - 1] == t[..j][j - 1] && s[..i][..i - 1] == t[..j][..j - 1];
      } else if s[i - 1] == t[j - 1] {
        assert s[..i - 1] != t[..j - 1];
      }
    }
  }

  // ----- case -----

  /** The same letter, once in upper and once in lower case. */
  predicate OtherCase(a: char, b: char) {
    ('A' <= a <= 'Z' && b as int == a as int + 32) || ('A' <= b <= 'Z' && a as int == b as int + 32)
  }

  /** One character for another costs two, and its other case one. */
  lemma OneCharacter(a: char, b: char)
    ensures Distance([a], 1, [b], 1) == if a == b then 0 else if OtherCase(a, b) then 1 else 2
  {
    assert Distance([a], 0, [b], 0) == 0 && Distance([a], 0, [b], 1) == 2 && Distance([a], 1, [b], 0) == 2;
  }

  /** Neighbours in the wrong order cost two, in whatever case. */
  lemma TwoCharacters(a: char, b: char, c: char, d: char)
    requires (a == c || OtherCase(a, c)) && (b == d || OtherCase(b, d)) && a != b && !OtherCase(a, b)
    ensures Distance([a, b], 2, [d, c], 2) == 2
  {
    var s, t := [a, b], [d, c];
    assert Distance(s, 0, t, 0) == 0 && Distance(s, 1, t, 0) == 2 && Distance(s, 0, t, 1) == 2;
    assert Distance(s, 1, t, 1) == 2;
    assert Distance(s, 2, t, 0) == 4 && Distance(s, 0, t, 2) == 4;
    assert Exchanged(s, 2, t, 2);
    AtLeast(s, 1, t, 2, 2);
    AtLeast(s, 2, t, 1, 2);
  }

  /** How many of the first `n` characters differ. */
  function Different(s: string, t: string, n: nat): nat
    requires n <= |s| && n <= |t|
  {
    if n == 0 then 0 else Different(s, t, n - 1) + if s[n - 1] == t[n - 1] then 0 else 1
  }

  /** Strings that differ in case only are at most one apart for every character that differs. */
  lemma {:induction false} CaseCostsHalf(s: string, t: string, n: nat)
    requires n <= |s| && n <= |t| && forall k :: 0 <= k < n ==> s[k] == t[k] || OtherCase(s[k], t[k])
    ensures Distance(s, n, t, n) <= Different(s, t, n)
    decreases n
  {
    if n > 0 {
      hide Distance, Exchanged, Substitution, OtherCase;
      CaseCostsHalf(s, t, n - 1);
      Recurrence(s, n - 1, t, n - 1);
      CaseIsCheap(s[n - 1], t[n - 1]);
    }
  }

  lemma CaseIsCheap(a: char, b: char)
    requires a == b || OtherCase(a, b)
    ensures Substitution(a, b) == if a == b then 0 else 1
  {
  }

  // ----- the loop -----

  ghost predicate IsRow(row: array<nat>, s: string, i: nat, t: string, n: nat)
    requires i <= |s| && n <= |t| + 1 && row.Length == |t| + 1
    reads row
  {
    forall j :: 0 <= j < n ==> row[j] == Distance(s, i, t, j)
  }

  /** One entry of row `i` + 1. */
  method Entry(s: string, i: nat, t: string, j: nat, previousPrevious: array<nat>, previous: array<nat>,
               current: array<nat>)
    requires i < |s| && j < |t|
    requires previousPrevious.Length == previous.Length == current.Length == |t| + 1
    requires current != previous && current != previousPrevious
    requires IsRow(previous, s, i, t, |t| + 1) && IsRow(current, s, i + 1, t, j + 1)
    requires i > 0 ==> IsRow(previousPrevious, s, i - 1, t, |t| + 1)
    modifies current
    ensures IsRow(current, s, i + 1, t, j + 2)
  {
    hide Distance, ToLower;
    Recurrence(s, i, t, j);
    var cost := if s[i] == t[j] then 0 else if ToLower(s[i]) == ToLower(t[j]) then 1 else 2;
    var best := Min(Min(previous[j + 1] + 2, current[j] + 2), previous[j] + cost);
    if i > 0 && j > 0 && ToLower(s[i]) == ToLower(t[j - 1]) && ToLower(s[i - 1]) == ToLower(t[j]) {
      best := Min(best, previousPrevious[j - 1] + 2);
    }
    current[j + 1] := best;
  }

  method LevenshteinDistance(string1: string, string2: string) returns (distance: nat)
    ensures distance == Distance(string1, |string1|, string2, |string2|) / 2
  {
    var size1, size2 := |string1|, |string2|;
    var previous := new nat[size2 + 1];
    var current := new nat[size2 + 1];
    var previousPrevious := new nat[size2 + 1];
    for j := 0 to size2 + 1
      invariant IsRow(previous, string1, 0, string2, j)
    {
      previous[j] := j * 2;
    }
    for i := 0 to size1
      invariant previous.Length == current.Length == previousPrevious.Length == size2 + 1
      invariant fresh(previous) && fresh(current) && fresh(previousPrevious)
      invariant previous != current && current != previousPrevious && previous != previousPrevious
      invariant IsRow(previous, string1, i, string2, size2 + 1)
      invariant i > 0 ==> IsRow(previousPrevious, string1, i - 1, string2, size2 + 1)
    {
      current[0] := (i + 1) * 2;
      for j := 0 to size2
        invariant IsRow(current, string1, i + 1, string2, j + 1)
        invariant IsRow(previous, string1, i, string2, size2 + 1)
        invariant i > 0 ==> IsRow(previousPrevious, string1, i - 1, string2, size2 + 1)
      {
        Entry(string1, i, string2, j, previousPrevious, previous, current);
      }
      previousPrevious, previous := previous, previousPrevious;
      previous, current := current, previous;
    }
    distance := previous[size2] / 2;
  }
}
