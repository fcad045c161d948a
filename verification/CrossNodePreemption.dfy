// The exhaustive search of cross-node preemption: dfs tries every subset of the
// evictable pods, building each one in a buffer that all branches share.
module CrossNodePreemption {
  import opened Pods
  import opened Slices

  // ----- the specification -----

  /** prefix followed by each choice from rest; pods are rather picked than left out. */
  function Choices(prefix: seq<Pod>, rest: seq<Pod>): seq<seq<Pod>>
    decreases |rest|
  {
    if rest == [] then [prefix]
    else Choices(prefix + [rest[0]], rest[1..]) + Choices(prefix, rest[1..])
  }

  /** A node on which the preemptor would fit, and the choice of victims it was found for. */
  datatype Finding = Finding(node: string, choice: seq<Pod>)

  /** f names the nodes that fit with the given pods gone. */
  function Findings(f: seq<Pod> -> seq<string>, c: seq<Pod>): seq<Finding> {
    seq(|f(c)|, i requires 0 <= i < |f(c)| => Finding(f(c)[i], c))
  }

  function Outcomes(f: seq<Pod> -> seq<string>, choices: seq<seq<Pod>>): seq<Finding> {
    if choices == [] then [] else Findings(f, choices[0]) + Outcomes(f, choices[1..])
  }

  lemma {:induction false} OutcomesConcat(f: seq<Pod> -> seq<string>, a: seq<seq<Pod>>, b: seq<seq<Pod>>)
    ensures Outcomes(f, a + b) == Outcomes(f, a) + Outcomes(f, b)
    decreases |a|
  {
    if a == [] {
      assert a + b == b;
    } else {
      assert (a + b)[1..] == a[1..] + b;
      OutcomesConcat(f, a[1..], b);
    }
  }

  lemma {:induction false} ChoicesExtend(prefix: seq<Pod>, rest: seq<Pod>, c: seq<Pod>)
    requires c in Choices(prefix, rest)
    ensures prefix <= c && |c| <= |prefix| + |rest|
    decreases |rest|
  {
    if rest != [] {
      if c in Choices(prefix + [rest[0]], rest[1..]) {
        ChoicesExtend(prefix + [rest[0]], rest[1..], c);
      } else {
        ChoicesExtend(prefix, rest[1..], c);
      }
    }
  }

  lemma {:induction false} OutcomesStem(f: seq<Pod> -> seq<string>, choices: seq<seq<Pod>>, j: nat)
    requires j < |Outcomes(f, choices)|
    ensures Outcomes(f, choices)[j].choice in choices
    decreases |choices|
  {
    var n := |Findings(f, choices[0])|;
    if j >= n {
      OutcomesStem(f, choices[1..], j - n);
    }
  }

  /** The findings are the nodes that f names for the choices, and nothing else. */
  lemma {:induction false} OutcomesAreExactly(f: seq<Pod> -> seq<string>, choices: seq<seq<Pod>>, w: Finding)
    ensures w in Outcomes(f, choices) <==> w.choice in choices && w.node in f(w.choice)
    decreases |choices|
  {
    if choices != [] {
      assert choices == [choices[0]] + choices[1..];
      OutcomesAreExactly(f, choices[1..], w);
      if w.choice == choices[0] && w.node in f(w.choice) {
        var i :| 0 <= i < |f(w.choice)| && f(w.choice)[i] == w.node;
        assert Findings(f, w.choice)[i] == w;
      }
    }
  }

  lemma OutcomesExtend(f: seq<Pod> -> seq<string>, prefix: seq<Pod>, rest: seq<Pod>)
    ensures forall w | w in Outcomes(f, Choices(prefix, rest)) :: prefix <= w.choice && |w.choice| <= |prefix| + |rest|
  {
    var found := Outcomes(f, Choices(prefix, rest));
    forall w | w in found ensures prefix <= w.choice && |w.choice| <= |prefix| + |rest| {
      var j :| 0 <= j < |found| && found[j] == w;
      OutcomesStem(f, Choices(prefix, rest), j);
      ChoicesExtend(prefix, rest, w.choice);
    }
  }

  // ----- the arrays behind the paths -----

  /** grow(n) is the capacity that the runtime gives to a full slice of length n that is appended to. */
  ghost predicate Grows(grow: nat -> nat) {
    forall n :: grow(n) > n
  }

  /** The capacity of every path of n pods: each path is its predecessor with one pod appended. */
  ghost function Cap(grow: nat -> nat, n: nat): nat {
    if n == 0 then 0 else if Cap(grow, n - 1) > n - 1 then Cap(grow, n - 1) else grow(n - 1)
  }

  /** How many pods an array held when the path of n pods that lives in it was moved there. */
  ghost function Moved(grow: nat -> nat, n: nat): nat
    requires n > 0
  {
    if Cap(grow, n - 1) == n - 1 then n - 1 else Moved(grow, n - 1)
  }

  lemma {:induction false} CapHolds(grow: nat -> nat, n: nat)
    requires Grows(grow)
    ensures Cap(grow, n) >= n
    ensures n > 0 ==> Moved(grow, n) < n && Cap(grow, Moved(grow, n)) == Moved(grow, n)
    decreases n
  {
    if n > 0 {
      CapHolds(grow, n - 1);
    }
  }

  /** Paths share an array as long as it has room... */
  lemma {:induction false} SharedArray(grow: nat -> nat, m: nat, n: nat)
    requires Grows(grow) && 0 < m <= n <= Cap(grow, m)
    ensures Cap(grow, n) == Cap(grow, m) && Moved(grow, n) == Moved(grow, m) < m
    decreases n
  {
    CapHolds(grow, m);
    if n > m {
      SharedArray(grow, m, n - 1);
    }
  }

  /** ...and no longer. */
  lemma {:induction false} NextArray(grow: nat -> nat, m: nat, n: nat)
    requires Grows(grow) && n > Cap(grow, m)
    ensures Moved(grow, n) >= Cap(grow, m)
    decreases n
  {
    CapHolds(grow, m);
    CapHolds(grow, n - 1);
    if n - 1 > Cap(grow, m) {
      NextArray(grow, m, n - 1);
    } else if 0 < m {
      SharedArray(grow, m, n - 1);
    }
  }

  /** What a slice that held choice c reads once the branches that leave the first `from` pods alone are
      done: every slot that was shared with one of them ends up with the last pod. */
  ghost function Retained(pods: seq<Pod>, grow: nat -> nat, from: nat, c: seq<Pod>): seq<Pod> {
    seq(|c|, k requires 0 <= k < |c| =>
      if pods != [] && k >= from && k > Moved(grow, |c|) then pods[|pods| - 1] else c[k])
  }

  lemma RetainedInPlace(pods: seq<Pod>, grow: nat -> nat, from: nat, c: seq<Pod>, k: nat)
    requires Grows(grow) && k < |c| <= Cap(grow, from) && pods != []
    ensures Retained(pods, grow, from, c)[k] == if k >= from then pods[|pods| - 1] else c[k]
  {
    if from > 0 && k >= from {
      SharedArray(grow, from, |c|);
    }
  }

  lemma RetainedElsewhere(pods: seq<Pod>, grow: nat -> nat, from: nat, c: seq<Pod>)
    requires Grows(grow) && |c| > Cap(grow, from)
    ensures Retained(pods, grow, from, c) == Retained(pods, grow, from + 1, c)
  {
    NextArray(grow, from, |c|);
    CapHolds(grow, from);
  }

  // ----- the search -----

  /** The victims are the very slice that the pass was given. */
  datatype Candidate = Candidate(node: string, victims: Slice<Pod>)

  /** calls records what each pass was given at the time of its call. */
  class Results {
    var items: seq<Candidate>
    ghost var calls: seq<seq<Pod>>

    constructor ()
      ensures items == [] && calls == []
    {
      items, calls := [], [];
    }
  }

  ghost predicate Stands(c: Candidate, w: Finding, retained: seq<Pod>)
    reads c.victims.data
  {
    c.node == w.node && InBounds(c.victims) && Contents(c.victims) == retained
  }

  /** The candidates for found, with what their slices read by now. */
  ghost predicate AllStand(pods: seq<Pod>, grow: nat -> nat, from: nat, items: seq<Candidate>, found: seq<Finding>)
    reads set c | c in items :: c.victims.data
  {
    |items| == |found| && forall j | 0 <= j < |found| :: Stands(items[j], found[j], Retained(pods, grow, from, found[j].choice))
  }

  /** A choice that fits into the array of the path lives there. */
  ghost predicate Placed(path: Slice<Pod>, items: seq<Candidate>, found: seq<Finding>) {
    && |items| == |found|
    && forall j | 0 <= j < |found| ::
         if |found[j].choice| <= path.data.Length then
           items[j] == Candidate(found[j].node, Slice(path.data, |found[j].choice|))
         else items[j].victims.data != path.data
  }

  /** Slots behind the path that some branch has used. */
  ghost predicate UsedUp(path: Slice<Pod>, pods: seq<Pod>, i: nat)
    requires i <= |pods|
    reads path.data
  {
    forall k | path.len <= k < path.len + |pods| - i && k < path.data.Length :: path.data[k] == pods[|pods| - 1]
  }

  /** The candidates of the branches that pick one more pod. What lives in the array of the path is still to be overwritten. */
  ghost predicate Picked(pods: seq<Pod>, grow: nat -> nat, path: Slice<Pod>, items: seq<Candidate>, found: seq<Finding>)
    reads set c | c in items :: c.victims.data
  {
    && Placed(path, items, found)
    && forall j | 0 <= j < |found| && |found[j].choice| > path.data.Length ::
         Stands(items[j], found[j], Retained(pods, grow, path.len + 1, found[j].choice))
  }

  /** And once the branches that leave the pod out are done as well. */
  lemma PickedStand(pods: seq<Pod>, grow: nat -> nat, i: nat, path: Slice<Pod>, items: seq<Candidate>, found: seq<Finding>)
    requires Grows(grow) && InBounds(path) && path.data.Length == Cap(grow, path.len)
    requires i < |pods| && UsedUp(path, pods, i)
    requires forall w | w in found :: Contents(path) <= w.choice && |w.choice| <= path.len + |pods| - i
    requires Picked(pods, grow, path, items, found)
    ensures AllStand(pods, grow, path.len, items, found)
  {
    forall j | 0 <= j < |found|
      ensures Stands(items[j], found[j], Retained(pods, grow, path.len, found[j].choice))
    {
      var c := found[j].choice;
      assert found[j] in found;
      if |c| <= path.data.Length {
        forall k: nat | k < |c| ensures path.data[k] == Retained(pods, grow, path.len, c)[k] {
          RetainedInPlace(pods, grow, path.len, c, k);
          if k < path.len {
            assert Contents(path)[k] == c[k];
          }
        }
      } else {
        RetainedElsewhere(pods, grow, path.len, c);
      }
    }
  }

  function Candidates(names: seq<string>, victims: Slice<Pod>): seq<Candidate> {
    seq(|names|, i requires 0 <= i < |names| => Candidate(names[i], victims))
  }

  method Pass(path: Slice<Pod>, result: Results, f: seq<Pod> -> seq<string>)
    requires InBounds(path)
    modifies result
    ensures result.calls == old(result.calls) + [Contents(path)]
    ensures result.items == old(result.items) + Candidates(f(Contents(path)), path)
  {
    result.items := result.items + Candidates(f(path.data[..path.len]), path);
    result.calls := result.calls + [path.data[..path.len]];
  }

  lemma PassStands(pods: seq<Pod>, grow: nat -> nat, path: Slice<Pod>, f: seq<Pod> -> seq<string>)
    requires InBounds(path)
    ensures var items, found := Candidates(f(Contents(path)), path), Outcomes(f, Choices(Contents(path), []));
            Placed(path, items, found) && AllStand(pods, grow, path.len, items, found)
  {
    var prefix := Contents(path);
    assert Choices(prefix, []) == [prefix] && Outcomes(f, [prefix]) == Findings(f, prefix);
    assert Retained(pods, grow, path.len, prefix) == prefix;
  }

  /** Deeper calls write into the array behind path, but only past its end: each pass is given the
      intended choice, while the slices kept from earlier passes come to read what Retained says. */
  method Dfs(pods: seq<Pod>, i: nat, path: Slice<Pod>, result: Results, f: seq<Pod> -> seq<string>, grow: nat -> nat)
    returns (ghost added: seq<Candidate>)
    requires i <= |pods| && Grows(grow) && InBounds(path) && path.data.Length == Cap(grow, path.len)
    modifies path.data, result
    ensures Contents(path) == old(Contents(path)) && UsedUp(path, pods, i)
    ensures forall k | path.len + |pods| - i <= k < path.data.Length :: path.data[k] == old(path.data[k])
    ensures result.calls == old(result.calls) + Choices(Contents(path), pods[i..])
    ensures result.items == old(result.items) + added
    ensures Placed(path, added, Outcomes(f, Choices(Contents(path), pods[i..])))
    ensures AllStand(pods, grow, path.len, added, Outcomes(f, Choices(Contents(path), pods[i..])))
    ensures forall c | c in added && c.victims.data != path.data :: fresh(c.victims.data)
    decreases |pods| - i, 1
  {
    if i >= |pods| {
      Pass(path, result, f);
      PassStands(pods, grow, path, f);
      added := Candidates(f(Contents(path)), path);
    } else {
      ghost var calls, items := result.calls, result.items;
      ghost var picked := DfsPick(pods, i, path, result, f, grow);
      ghost var skipped := DfsSkip(pods, i, path, result, f, grow, picked);
      Joined(pods, grow, i, path, f, picked, skipped);
      Associative(items, picked, skipped);
      Associative(calls, Choices(Contents(path) + [pods[i]], pods[i + 1..]), Choices(Contents(path), pods[i + 1..]));
      added := picked + skipped;
    }
  }

  /** The first of the two recursive calls, for the path with pods[i] appended. */
  method DfsPick(pods: seq<Pod>, i: nat, path: Slice<Pod>, result: Results, f: seq<Pod> -> seq<string>, grow: nat -> nat)
    returns (ghost added: seq<Candidate>)
    requires i < |pods| && Grows(grow) && InBounds(path) && path.data.Length == Cap(grow, path.len)
    modifies path.data, result
    ensures Contents(path) == old(Contents(path))
    ensures forall k | path.len < k < path.len + |pods| - i && k < path.data.Length :: path.data[k] == pods[|pods| - 1]
    ensures path.len < path.data.Length ==> path.data[path.len] == pods[i]
    ensures forall k | path.len + |pods| - i <= k < path.data.Length :: path.data[k] == old(path.data[k])
    ensures result.calls == old(result.calls) + Choices(Contents(path) + [pods[i]], pods[i + 1..])
    ensures result.items == old(result.items) + added
    ensures Picked(pods, grow, path, added, Outcomes(f, Choices(Contents(path) + [pods[i]], pods[i + 1..])))
    ensures forall c | c in added && c.victims.data != path.data :: fresh(c.victims.data)
    decreases |pods| - i, 0
  {
    OutcomesExtend(f, Contents(path) + [pods[i]], pods[i + 1..]);
    var picked := Append(path, pods[i], grow(path.len));
    added := Dfs(pods, i + 1, picked, result, f, grow);
    PickedPlaces(pods, grow, path, picked, added, Outcomes(f, Choices(Contents(picked), pods[i + 1..])));
    if picked.data == path.data {
      assert Contents(path) == Contents(picked)[..path.len] && Contents(picked)[path.len] == pods[i];
    }
  }

  lemma PickedPlaces(pods: seq<Pod>, grow: nat -> nat, path: Slice<Pod>, picked: Slice<Pod>, items: seq<Candidate>, found: seq<Finding>)
    requires picked.len == path.len + 1 && path.len <= path.data.Length
    requires picked.data == path.data || path.len == path.data.Length
    requires forall w | w in found :: |w.choice| > path.len
    requires Placed(picked, items, found) && AllStand(pods, grow, picked.len, items, found)
    requires picked.data == path.data || forall c | c in items :: c.victims.data != path.data
    ensures Picked(pods, grow, path, items, found)
  {
    forall j | 0 <= j < |found|
      ensures found[j] in found && items[j] in items
      ensures Stands(items[j], found[j], Retained(pods, grow, path.len + 1, found[j].choice))
    {
    }
  }

  /** The second one is out of reach of the candidates of the first that have moved to other arrays. */
  method DfsSkip(pods: seq<Pod>, i: nat, path: Slice<Pod>, result: Results, f: seq<Pod> -> seq<string>, grow: nat -> nat,
                 ghost picked: seq<Candidate>)
    returns (ghost added: seq<Candidate>)
    requires i < |pods| && Grows(grow) && InBounds(path) && path.data.Length == Cap(grow, path.len)
    requires Picked(pods, grow, path, picked, Outcomes(f, Choices(Contents(path) + [pods[i]], pods[i + 1..])))
    modifies path.data, result
    ensures Picked(pods, grow, path, picked, Outcomes(f, Choices(Contents(path) + [pods[i]], pods[i + 1..])))
    ensures Contents(path) == old(Contents(path)) && UsedUp(path, pods, i + 1)
    ensures forall k | path.len + |pods| - i - 1 <= k < path.data.Length :: path.data[k] == old(path.data[k])
    ensures result.calls == old(result.calls) + Choices(Contents(path), pods[i + 1..])
    ensures result.items == old(result.items) + added
    ensures Placed(path, added, Outcomes(f, Choices(Contents(path), pods[i + 1..])))
    ensures AllStand(pods, grow, path.len, added, Outcomes(f, Choices(Contents(path), pods[i + 1..])))
    ensures forall c | c in added && c.victims.data != path.data :: fresh(c.victims.data)
    decreases |pods| - i, 0
  {
    ghost var found := Outcomes(f, Choices(Contents(path) + [pods[i]], pods[i + 1..]));
    added := Dfs(pods, i + 1, path, result, f, grow);
    forall j | 0 <= j < |found| && |found[j].choice| > path.data.Length
      ensures Stands(picked[j], found[j], Retained(pods, grow, path.len + 1, found[j].choice))
    {
      assert old(Stands(picked[j], found[j], Retained(pods, grow, path.len + 1, found[j].choice)));
    }
  }

  lemma Associative<T>(a: seq<T>, b: seq<T>, c: seq<T>)
    ensures (a + b) + c == a + (b + c)
  {
  }

  /** Both halves together. */
  lemma Joined(pods: seq<Pod>, grow: nat -> nat, i: nat, path: Slice<Pod>, f: seq<Pod> -> seq<string>,
               items: seq<Candidate>, items': seq<Candidate>)
    requires Grows(grow) && InBounds(path) && path.data.Length == Cap(grow, path.len)
    requires i < |pods| && UsedUp(path, pods, i)
    requires Picked(pods, grow, path, items, Outcomes(f, Choices(Contents(path) + [pods[i]], pods[i + 1..])))
    requires Placed(path, items', Outcomes(f, Choices(Contents(path), pods[i + 1..])))
    requires AllStand(pods, grow, path.len, items', Outcomes(f, Choices(Contents(path), pods[i + 1..])))
    ensures var choices := Choices(Contents(path) + [pods[i]], pods[i + 1..]) + Choices(Contents(path), pods[i + 1..]);
            && Choices(Contents(path), pods[i..]) == choices
            && Placed(path, items + items', Outcomes(f, choices))
            && AllStand(pods, grow, path.len, items + items', Outcomes(f, choices))
  {
    var first, second := Choices(Contents(path) + [pods[i]], pods[i + 1..]), Choices(Contents(path), pods[i + 1..]);
    assert pods[i..][1..] == pods[i + 1..];
    OutcomesExtend(f, Contents(path) + [pods[i]], pods[i + 1..]);
    PickedStand(pods, grow, i, path, items, Outcomes(f, first));
    OutcomesConcat(f, first, second);
  }

  function Evictable(preemptor: Pod, nodes: seq<seq<Pod>>): seq<Pod> {
    if nodes == [] then []
    else Evictable(preemptor, nodes[..|nodes| - 1]) + LowerThan(preemptor, nodes[|nodes| - 1])
  }

  function LowerThan(preemptor: Pod, pods: seq<Pod>): seq<Pod> {
    if pods == [] then []
    else
      var p := pods[|pods| - 1];
      LowerThan(preemptor, pods[..|pods| - 1]) + if p.priority < preemptor.priority then [p] else []
  }

  /** Each pass is given its choice, and finds what Outcomes says; the candidates made from it read, when the
      search is over, what is left of the choice. */
  method BruteForceDryRunPreemption(preemptor: Pod, potentialNodes: seq<seq<Pod>>, f: seq<Pod> -> seq<string>, grow: nat -> nat)
    returns (candidates: seq<Candidate>, ghost calls: seq<seq<Pod>>)
    requires Grows(grow)
    ensures calls == Choices([], Evictable(preemptor, potentialNodes))
    ensures AllStand(Evictable(preemptor, potentialNodes), grow, 0, candidates, Outcomes(f, calls))
  {
    var pods := [];
    assert potentialNodes[..|potentialNodes|] == potentialNodes;
    for i := 0 to |potentialNodes|
      invariant pods == Evictable(preemptor, potentialNodes[..i])
    {
      var node := potentialNodes[i];
      ghost var before := pods;
      assert potentialNodes[..i + 1][..i] == potentialNodes[..i];
      assert node[..|node|] == node;
      for j := 0 to |node|
        invariant pods == before + LowerThan(preemptor, node[..j])
      {
        assert node[..j + 1][..j] == node[..j];
        if node[j].priority < preemptor.priority {
          pods := pods + [node[j]];
        }
      }
    }
    var path := Nil<Pod>();
    var result := new Results();
    assert pods[0..] == pods;
    ghost var added := Dfs(pods, 0, path, result, f, grow);
    candidates, calls := result.items, result.calls;
  }

  // ----- the choices are all the subsets, each once -----

  function Pow2(n: nat): nat {
    if n == 0 then 1 else 2 * Pow2(n - 1)
  }

  lemma {:induction false} ChoicesCount(prefix: seq<Pod>, rest: seq<Pod>)
    ensures |Choices(prefix, rest)| == Pow2(|rest|)
    decreases |rest|
  {
    if rest != [] {
      ChoicesCount(prefix + [rest[0]], rest[1..]);
      ChoicesCount(prefix, rest[1..]);
    }
  }

  predicate Subsequence(c: seq<Pod>, s: seq<Pod>) {
    c == [] || (s != [] && ((c[0] == s[0] && Subsequence(c[1..], s[1..])) || Subsequence(c, s[1..])))
  }

  lemma {:induction false} SubsequenceElements(c: seq<Pod>, s: seq<Pod>)
    requires Subsequence(c, s)
    ensures forall p | p in c :: p in s
    decreases |s|
  {
    if c != [] {
      if c[0] == s[0] && Subsequence(c[1..], s[1..]) {
        SubsequenceElements(c[1..], s[1..]);
        assert c == [c[0]] + c[1..];
      } else {
        SubsequenceElements(c, s[1..]);
      }
    }
  }

  /** Every choice is the prefix with a subsequence of rest... */
  lemma {:induction false} ChoicesAreSubsequences(prefix: seq<Pod>, rest: seq<Pod>, k: nat)
    requires k < |Choices(prefix, rest)|
    ensures prefix <= Choices(prefix, rest)[k] && Subsequence(Choices(prefix, rest)[k][|prefix|..], rest)
    decreases |rest|
  {
    if rest != [] {
      var picks := Choices(prefix + [rest[0]], rest[1..]);
      var c := Choices(prefix, rest)[k];
      if k < |picks| {
        ChoicesAreSubsequences(prefix + [rest[0]], rest[1..], k);
        assert c[|prefix|] == rest[0] && c[|prefix|..][1..] == c[|prefix| + 1..];
      } else {
        ChoicesAreSubsequences(prefix, rest[1..], k - |picks|);
      }
    }
  }

  /** ...every subsequence is among them... */
  lemma {:induction false} SubsequencesAreChosen(prefix: seq<Pod>, rest: seq<Pod>, c: seq<Pod>)
    requires Subsequence(c, rest)
    ensures prefix + c in Choices(prefix, rest)
    decreases |rest|
  {
    if rest == [] {
      assert prefix + c == prefix;
    } else if c != [] && c[0] == rest[0] && Subsequence(c[1..], rest[1..]) {
      SubsequencesAreChosen(prefix + [rest[0]], rest[1..], c[1..]);
      assert prefix + [rest[0]] + c[1..] == prefix + c;
    } else {
      SubsequencesAreChosen(prefix, rest[1..], c);
    }
  }

  ghost predicate AllDifferent(pods: seq<Pod>) {
    forall i, j | 0 <= i < j < |pods| :: pods[i] != pods[j]
  }

  /** ...and none of them twice. */
  lemma {:induction false} ChoicesDiffer(prefix: seq<Pod>, rest: seq<Pod>, k: nat, l: nat)
    requires AllDifferent(rest) && k < l < |Choices(prefix, rest)|
    ensures Choices(prefix, rest)[k] != Choices(prefix, rest)[l]
    decreases |rest|
  {
    if rest != [] {
      var head, tail := rest[0], rest[1..];
      var picks := Choices(prefix + [head], tail);
      assert head !in tail;
      if l < |picks| {
        ChoicesDiffer(prefix + [head], tail, k, l);
      } else if |picks| <= k {
        ChoicesDiffer(prefix, tail, k - |picks|, l - |picks|);
      } else {
        var a, b := Choices(prefix, rest)[k], Choices(prefix, rest)[l];
        ChoicesAreSubsequences(prefix + [head], tail, k);
        ChoicesAreSubsequences(prefix, tail, l - |picks|);
        SubsequenceElements(b[|prefix|..], tail);
        assert a[|prefix|] == head;
        assert |b| > |prefix| ==> b[|prefix|] in b[|prefix|..];
      }
    }
  }

  lemma {:induction false} LowerThanIsLower(preemptor: Pod, pods: seq<Pod>)
    ensures forall p :: p in LowerThan(preemptor, pods) <==> p in pods && p.priority < preemptor.priority
    decreases |pods|
  {
    if pods != [] {
      assert pods == pods[..|pods| - 1] + [pods[|pods| - 1]];
      LowerThanIsLower(preemptor, pods[..|pods| - 1]);
    }
  }

  lemma {:induction false} EvictableIsLower(preemptor: Pod, nodes: seq<seq<Pod>>, p: Pod)
    ensures p in Evictable(preemptor, nodes) <==> p.priority < preemptor.priority && exists node | node in nodes :: p in node
    decreases |nodes|
  {
    if nodes != [] {
      var n := |nodes| - 1;
      assert nodes == nodes[..n] + [nodes[n]];
      EvictableIsLower(preemptor, nodes[..n], p);
      LowerThanIsLower(preemptor, nodes[n]);
    }
  }

  lemma {:induction false} LowerThanCounts(preemptor: Pod, pods: seq<Pod>, p: Pod)
    ensures multiset(LowerThan(preemptor, pods))[p] == if p.priority < preemptor.priority then multiset(pods)[p] else 0
    decreases |pods|
  {
    if pods != [] {
      var front, last := pods[..|pods| - 1], pods[|pods| - 1];
      assert pods == front + [last];
      assert multiset(pods) == multiset(front) + multiset{last};
      LowerThanCounts(preemptor, front, p);
    }
  }

  /** All pods of the nodes, node by node. */
  function AllPods(nodes: seq<seq<Pod>>): seq<Pod> {
    if nodes == [] then [] else AllPods(nodes[..|nodes| - 1]) + nodes[|nodes| - 1]
  }

  /** Each lower-priority pod is evictable, as often as it occurs on the nodes, and no other pod is. */
  lemma {:induction false} EvictableCounts(preemptor: Pod, nodes: seq<seq<Pod>>, p: Pod)
    ensures multiset(Evictable(preemptor, nodes))[p] == if p.priority < preemptor.priority then multiset(AllPods(nodes))[p] else 0
    decreases |nodes|
  {
    if nodes != [] {
      EvictableCounts(preemptor, nodes[..|nodes| - 1], p);
      LowerThanCounts(preemptor, nodes[|nodes| - 1], p);
    }
  }

  /** The search tries 2^n choices: exactly the subsequences of the lower-priority pods of the nodes, each of them once. */
  lemma SearchIsExhaustive(preemptor: Pod, nodes: seq<seq<Pod>>, c: seq<Pod>)
    ensures var pods := Evictable(preemptor, nodes);
            var choices := Choices([], pods);
            && |choices| == Pow2(|pods|)
            && (c in choices <==> Subsequence(c, pods))
            && (c in choices ==> forall p | p in c :: p.priority < preemptor.priority)
            && (AllDifferent(pods) ==> forall k, l | 0 <= k < l < |choices| :: choices[k] != choices[l])
  {
    var pods := Evictable(preemptor, nodes);
    var choices := Choices([], pods);
    ChoicesCount([], pods);
    if c in choices {
      var k :| 0 <= k < |choices| && choices[k] == c;
      ChoicesAreSubsequences([], pods, k);
      assert c[0..] == c;
      SubsequenceElements(c, pods);
      forall p | p in c ensures p.priority < preemptor.priority {
        EvictableIsLower(preemptor, nodes, p);
      }
    }
    if Subsequence(c, pods) {
      SubsequencesAreChosen([], pods, c);
      assert [] + c == c;
    }
    if AllDifferent(pods) {
      forall k, l | 0 <= k < l < |choices| ensures choices[k] != choices[l] {
        ChoicesDiffer([], pods, k, l);
      }
    }
  }

  // ----- which candidates keep their choice -----

  lemma {:induction false} SubsequenceDistinct(c: seq<Pod>, s: seq<Pod>)
    requires Subsequence(c, s) && AllDifferent(s)
    ensures AllDifferent(c)
    decreases |s|
  {
    if c != [] {
      if c[0] == s[0] && Subsequence(c[1..], s[1..]) {
        SubsequenceDistinct(c[1..], s[1..]);
        SubsequenceElements(c[1..], s[1..]);
        assert c == [c[0]] + c[1..];
        assert s[0] !in s[1..];
      } else {
        SubsequenceDistinct(c, s[1..]);
      }
    }
  }

  /** A choice survives the search if it reaches at most one pod beyond the ones its array was
      created with, or two and ends with the very last evictable pod. */
  lemma SurvivesIff(pods: seq<Pod>, grow: nat -> nat, c: seq<Pod>)
    requires Grows(grow) && AllDifferent(pods) && Subsequence(c, pods) && c != []
    ensures Retained(pods, grow, 0, c) == c <==>
            || |c| == Moved(grow, |c|) + 1
            || (|c| == Moved(grow, |c|) + 2 && c[|c| - 1] == pods[|pods| - 1])
  {
    var m, r := Moved(grow, |c|), Retained(pods, grow, 0, c);
    CapHolds(grow, |c|);
    SubsequenceDistinct(c, pods);
    if |c| > m + 1 {
      assert r[|c| - 1] == pods[|pods| - 1];
    }
    if |c| > m + 2 {
      assert r[|c| - 2] == r[|c| - 1] && c[|c| - 2] != c[|c| - 1];
    }
  }

  /** The choice of the first n pods. */
  lemma {:induction false} PrefixIsSubsequence(pods: seq<Pod>, n: nat)
    requires n <= |pods|
    ensures Subsequence(pods[..n], pods)
    decreases n
  {
    if n > 0 {
      PrefixIsSubsequence(pods[1..], n - 1);
      assert pods[..n][1..] == pods[1..][..n - 1];
    }
  }

  lemma {:induction false} SubsequenceLength(c: seq<Pod>, s: seq<Pod>)
    requires Subsequence(c, s)
    ensures |c| <= |s| && (|c| == |s| ==> c == s)
    decreases |s|
  {
    if c != [] {
      if c[0] == s[0] && Subsequence(c[1..], s[1..]) {
        SubsequenceLength(c[1..], s[1..]);
        assert c == [c[0]] + c[1..] && s == [s[0]] + s[1..];
      } else {
        SubsequenceLength(c, s[1..]);
      }
    }
  }

  lemma SpareSlotLosesAChoice(pods: seq<Pod>, grow: nat -> nat, n: nat)
    requires Grows(grow) && AllDifferent(pods) && n + 1 < |pods| && Cap(grow, n) != n
    ensures Subsequence(pods[..n + 1], pods) && Retained(pods, grow, 0, pods[..n + 1]) != pods[..n + 1]
  {
    var c := pods[..n + 1];
    PrefixIsSubsequence(pods, n + 1);
    SurvivesIff(pods, grow, c);
    CapHolds(grow, n);
    assert c[n] == pods[n] != pods[|pods| - 1];
  }

  lemma NoSpareSlotKeepsAll(pods: seq<Pod>, grow: nat -> nat, c: seq<Pod>)
    requires Grows(grow) && AllDifferent(pods) && Subsequence(c, pods)
    requires forall n: nat | n + 1 < |pods| :: Cap(grow, n) == n
    ensures Retained(pods, grow, 0, c) == c
  {
    if c != [] {
      SubsequenceLength(c, pods);
      SurvivesIff(pods, grow, c);
      if |c| == |pods| && Cap(grow, |c| - 1) != |c| - 1 {
        assert Cap(grow, |c| - 2) == |c| - 2;
      }
    }
  }

  /** Every choice survives the search exactly if no array, the last two lengths aside, has a slot to spare. */
  lemma AllSurviveIff(pods: seq<Pod>, grow: nat -> nat)
    requires Grows(grow) && AllDifferent(pods)
    ensures (forall c | Subsequence(c, pods) :: Retained(pods, grow, 0, c) == c) <==>
            (forall n: nat | n + 1 < |pods| :: Cap(grow, n) == n)
  {
    if n: nat :| n + 1 < |pods| && Cap(grow, n) != n {
      SpareSlotLosesAChoice(pods, grow, n);
    } else {
      forall c | Subsequence(c, pods) ensures Retained(pods, grow, 0, c) == c {
        NoSpareSlotKeepsAll(pods, grow, c);
      }
    }
  }

  /** Small slices double. */
  function Doubled(n: nat): nat {
    if n == 0 then 1 else 2 * n
  }

  lemma DoubledCapacities()
    ensures Grows(Doubled)
    ensures Cap(Doubled, 1) == 1 && Cap(Doubled, 2) == 2 && Cap(Doubled, 3) == 4 && Moved(Doubled, 4) == 2
  {
    assert Cap(Doubled, 0) == 0;
    assert Cap(Doubled, 1) == 1;
    assert Cap(Doubled, 2) == 2;
    assert Cap(Doubled, 3) == 4;
    assert Moved(Doubled, 3) == 2;
  }

  /** With doubling, the candidates are sound as long as there are at most four evictable pods. */
  lemma FourPodsAreSafe(pods: seq<Pod>)
    requires AllDifferent(pods)
    ensures (forall c | Subsequence(c, pods) :: Retained(pods, Doubled, 0, c) == c) <==> |pods| <= 4
  {
    DoubledCapacities();
    AllSurviveIff(pods, Doubled);
    if |pods| <= 4 {
      forall n: nat | n + 1 < |pods| ensures Cap(Doubled, n) == n {
        assert n == 0 || n == 1 || n == 2;
      }
    } else {
      assert Cap(Doubled, 3) != 3;
    }
  }

  lemma {:induction false} LargestChoicesFirst(prefix: seq<Pod>, rest: seq<Pod>)
    requires rest != []
    ensures var choices := Choices(prefix, rest);
            |choices| >= 2 && choices[0] == prefix + rest && choices[1] == prefix + rest[..|rest| - 1]
    decreases |rest|
  {
    if |rest| == 1 {
      assert Choices(prefix, rest) == [prefix + [rest[0]]] + [prefix];
      assert prefix + rest == prefix + [rest[0]] && prefix + rest[..0] == prefix;
    } else {
      LargestChoicesFirst(prefix + [rest[0]], rest[1..]);
      assert prefix + [rest[0]] + rest[1..] == prefix + rest;
      assert prefix + [rest[0]] + rest[1..][..|rest| - 2] == prefix + rest[..|rest| - 1];
    }
  }

  lemma {:induction false} AllLower(preemptor: Pod, pods: seq<Pod>)
    requires forall p | p in pods :: p.priority < preemptor.priority
    ensures LowerThan(preemptor, pods) == pods
    decreases |pods|
  {
    if pods != [] {
      AllLower(preemptor, pods[..|pods| - 1]);
      assert pods[|pods| - 1] in pods;
    }
  }

  lemma OneNode(preemptor: Pod, pods: seq<Pod>)
    requires forall p | p in pods :: p.priority < preemptor.priority
    ensures Evictable(preemptor, [pods]) == pods
  {
    AllLower(preemptor, pods);
    assert Evictable(preemptor, [pods][..0]) == [];
  }

  lemma SecondCandidate(pods: seq<Pod>, f: seq<Pod> -> seq<string>, node: string)
    requires |pods| == 5 && AllDifferent(pods) && forall c :: f(c) == [node]
    ensures var choices := Choices([], pods);
            && |choices| >= 2 && choices[1] == pods[..4]
            && |Outcomes(f, choices)| >= 2 && Outcomes(f, choices)[1] == Finding(node, pods[..4])
    ensures Retained(pods, Doubled, 0, pods[..4]) == pods[..3] + [pods[4]] != pods[..4]
  {
    LargestChoicesFirst([], pods);
    assert [] + pods[..4] == pods[..4];
    SecondOutcome(f, node, Choices([], pods));
    DoubledCapacities();
    assert (pods[..3] + [pods[4]])[3] != pods[..4][3];
  }

  lemma SecondOutcome(f: seq<Pod> -> seq<string>, node: string, choices: seq<seq<Pod>>)
    requires |choices| >= 2 && f(choices[0]) == f(choices[1]) == [node]
    ensures |Outcomes(f, choices)| >= 2 && Outcomes(f, choices)[1] == Finding(node, choices[1])
  {
    assert Outcomes(f, choices[1..]) == Findings(f, choices[1]) + Outcomes(f, choices[1..][1..]);
  }

  /** With five, the second candidate is lost: found for the first four pods, it ends up asking for
      the eviction of the first three and the fifth. */
  method FivePodsLoseAChoice(preemptor: Pod, node: string, pods: seq<Pod>) returns (candidates: seq<Candidate>, ghost calls: seq<seq<Pod>>)
    requires |pods| == 5 && AllDifferent(pods) && forall p | p in pods :: p.priority < preemptor.priority
    ensures |calls| >= 2 && calls[1] == pods[..4]
    ensures |candidates| >= 2 && candidates[1].node == node && InBounds(candidates[1].victims)
    ensures Contents(candidates[1].victims) == pods[..3] + [pods[4]] != calls[1]
  {
    DoubledCapacities();
    OneNode(preemptor, pods);
    var f := (c: seq<Pod>) => [node];
    candidates, calls := BruteForceDryRunPreemption(preemptor, [pods], f, Doubled);
    SecondCandidate(pods, f, node);
    assert Stands(candidates[1], Finding(node, pods[..4]), Retained(pods, Doubled, 0, pods[..4]));
  }
}
