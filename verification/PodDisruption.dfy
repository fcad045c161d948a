// filterPodsWithPDBViolation: which of the pods, disrupted in the given order,
// would break a disruption budget.
module PodDisruption {
  import opened Pods

  /** Label selectors are opaque: one that does not parse, an empty one, or a match function. */
  datatype Selector = Unparsable | Empty | Matching(matches: map<string, string> -> bool)

  datatype Budget = Budget(namespace: string, selector: Selector, allowed: int, disruptedPods: set<string>)

  /** Disrupting p would spend one unit of the budget. */
  predicate Covers(b: Budget, p: Pod) {
    && p.labels != map[] && b.namespace == p.namespace
    && b.selector.Matching? && b.selector.matches(p.labels)
    && p.name !in b.disruptedPods
  }

  function CoveredCount(b: Budget, pods: seq<Pod>): nat {
    if pods == [] then 0
    else CoveredCount(b, pods[..|pods| - 1]) + if Covers(b, pods[|pods| - 1]) then 1 else 0
  }

  /** Some budget covers pod i and has more covered pods up to and including i than it allows. */
  predicate Violates(pods: seq<Pod>, budgets: seq<Budget>, i: nat)
    requires i < |pods|
  {
    exists j | 0 <= j < |budgets| ::
      Covers(budgets[j], pods[i]) && CoveredCount(budgets[j], pods[..i + 1]) > budgets[j].allowed
  }

  /** For each pod, whether it violates. */
  function Marks(pods: seq<Pod>, budgets: seq<Budget>): seq<bool> {
    seq(|pods|, i requires 0 <= i < |pods| => Violates(pods, budgets, i))
  }

  /** The pods among the first n that carry the given mark, in their original order. */
  function Part(pods: seq<Pod>, marks: seq<bool>, mark: bool, n: nat): seq<Pod>
    requires n <= |pods| == |marks|
  {
    if n == 0 then []
    else
      var front := Part(pods, marks, mark, n - 1);
      if marks[n - 1] == mark then front + [pods[n - 1]] else front
  }

  function Violating(pods: seq<Pod>, budgets: seq<Budget>): seq<Pod> {
    Part(pods, Marks(pods, budgets), true, |pods|)
  }

  function NonViolating(pods: seq<Pod>, budgets: seq<Budget>): seq<Pod> {
    Part(pods, Marks(pods, budgets), false, |pods|)
  }

  lemma CoveredCountAppend(b: Budget, pods: seq<Pod>, p: Pod)
    ensures CoveredCount(b, pods + [p]) == CoveredCount(b, pods) + if Covers(b, p) then 1 else 0
  {
    assert (pods + [p])[..|pods|] == pods;
  }

  ghost predicate CountsDown(allowed: seq<int>, pods: seq<Pod>, budgets: seq<Budget>) {
    && |allowed| == |budgets|
    && forall j | 0 <= j < |budgets| :: allowed[j] == budgets[j].allowed - CoveredCount(budgets[j], pods)
  }

  /** The budgets' countdowns after one more pod, and whether any has gone below zero on its account. */
  method SpendOn(p: Pod, budgets: seq<Budget>, allowed: array<int>, ghost before: seq<Pod>) returns (violated: bool)
    requires CountsDown(allowed[..], before, budgets)
    modifies allowed
    ensures CountsDown(allowed[..], before + [p], budgets)
    ensures violated <==> exists j | 0 <= j < |budgets| ::
              Covers(budgets[j], p) && CoveredCount(budgets[j], before + [p]) > budgets[j].allowed
  {
    violated := false;
    forall b: Budget ensures CoveredCount(b, before + [p]) == CoveredCount(b, before) + if Covers(b, p) then 1 else 0 {
      CoveredCountAppend(b, before, p);
    }
    if p.labels == map[] { return; }
    for j := 0 to |budgets|
      invariant forall k | j <= k < |budgets| :: allowed[k] == budgets[k].allowed - CoveredCount(budgets[k], before)
      invariant forall k | 0 <= k < j :: allowed[k] == budgets[k].allowed - CoveredCount(budgets[k], before + [p])
      invariant violated <==> exists k | 0 <= k < j ::
          Covers(budgets[k], p) && CoveredCount(budgets[k], before + [p]) > budgets[k].allowed
    {
      if budgets[j].namespace != p.namespace { continue; }
      if budgets[j].selector.Unparsable? { continue; }
      if budgets[j].selector.Empty? || !budgets[j].selector.matches(p.labels) { continue; }
      if p.name in budgets[j].disruptedPods { continue; }
      allowed[j] := allowed[j] - 1;
      if allowed[j] < 0 {
        violated := true;
      }
    }
  }

  /** One countdown per budget stands in for all the counting. */
  method FilterPodsWithPDBViolation(pods: seq<Pod>, budgets: seq<Budget>) returns (violating: seq<Pod>, nonViolating: seq<Pod>)
    ensures violating == Violating(pods, budgets)
    ensures nonViolating == NonViolating(pods, budgets)
  {
    ghost var marks := Marks(pods, budgets);
    var allowed := new int[|budgets|](i requires 0 <= i < |budgets| => budgets[i].allowed);
    violating, nonViolating := [], [];
    for i := 0 to |pods|
      invariant violating == Part(pods, marks, true, i) && nonViolating == Part(pods, marks, false, i)
      invariant CountsDown(allowed[..], pods[..i], budgets)
    {
      var violated := SpendOn(pods[i], budgets, allowed, pods[..i]);
      assert pods[..i + 1] == pods[..i] + [pods[i]];
      assert violated == marks[i];
      if violated {
        violating := violating + [pods[i]];
      } else {
        nonViolating := nonViolating + [pods[i]];
      }
    }
  }

  // ----- the split -----

  /** The positions in pods of the elements of Part. */
  ghost function Positions(marks: seq<bool>, mark: bool, n: nat): seq<nat>
    requires n <= |marks|
  {
    if n == 0 then []
    else
      var front := Positions(marks, mark, n - 1);
      if marks[n - 1] == mark then front + [n - 1] else front
  }

  lemma {:induction false} PositionsAscend(pods: seq<Pod>, marks: seq<bool>, mark: bool, n: nat)
    requires n <= |pods| == |marks|
    ensures var ix, part := Positions(marks, mark, n), Part(pods, marks, mark, n);
            && |ix| == |part|
            && (forall k | 0 <= k < |ix| :: ix[k] < n && pods[ix[k]] == part[k])
            && (forall k, l | 0 <= k < l < |ix| :: ix[k] < ix[l])
  {
    if n > 0 {
      PositionsAscend(pods, marks, mark, n - 1);
    }
  }

  lemma {:induction false} PositionsAreExact(pods: seq<Pod>, marks: seq<bool>, mark: bool, n: nat, i: nat)
    requires i < n <= |pods| == |marks|
    ensures i in Positions(marks, mark, n) <==> marks[i] == mark
  {
    if i < n - 1 {
      PositionsAreExact(pods, marks, mark, n - 1, i);
    } else {
      PositionsAscend(pods, marks, mark, n - 1);
      assert i !in Positions(marks, mark, n - 1);
    }
  }

  lemma CountSnoc(s: seq<Pod>, p: Pod, q: Pod)
    ensures multiset(s + [p])[q] == multiset(s)[q] + if p == q then 1 else 0
  {
  }

  lemma {:induction false} PartCounts(pods: seq<Pod>, marks: seq<bool>, n: nat, q: Pod)
    requires n <= |pods| == |marks|
    ensures multiset(Part(pods, marks, true, n))[q] + multiset(Part(pods, marks, false, n))[q] == multiset(pods[..n])[q]
  {
    if n > 0 {
      var p, mark := pods[n - 1], marks[n - 1];
      PartCounts(pods, marks, n - 1, q);
      CountSnoc(pods[..n - 1], p, q);
      CountSnoc(Part(pods, marks, mark, n - 1), p, q);
      assert Part(pods, marks, mark, n) == Part(pods, marks, mark, n - 1) + [p];
      assert Part(pods, marks, !mark, n) == Part(pods, marks, !mark, n - 1);
      PrefixSnoc(pods, n);
    }
  }

  lemma PrefixSnoc(pods: seq<Pod>, n: nat)
    requires 0 < n <= |pods|
    ensures pods[..n] == pods[..n - 1] + [pods[n - 1]]
  {
  }

  /** Both parts keep the input order, a pod is in the first exactly if it violates, and together they hold the input. */
  lemma SplitIsStablePartition(pods: seq<Pod>, budgets: seq<Budget>)
    ensures forall mark :: var ix, part := Positions(Marks(pods, budgets), mark, |pods|), Part(pods, Marks(pods, budgets), mark, |pods|);
              && |ix| == |part| && (forall k, l | 0 <= k < l < |ix| :: ix[k] < ix[l])
              && (forall k | 0 <= k < |ix| :: ix[k] < |pods| && pods[ix[k]] == part[k])
              && (forall i: nat | i < |pods| :: i in ix <==> Violates(pods, budgets, i) == mark)
    ensures multiset(Violating(pods, budgets)) + multiset(NonViolating(pods, budgets)) == multiset(pods)
  {
    var marks := Marks(pods, budgets);
    forall mark: bool
      ensures var ix, part := Positions(marks, mark, |pods|), Part(pods, marks, mark, |pods|);
              && |ix| == |part| && (forall k, l | 0 <= k < l < |ix| :: ix[k] < ix[l])
              && (forall k | 0 <= k < |ix| :: ix[k] < |pods| && pods[ix[k]] == part[k])
              && (forall i: nat | i < |pods| :: i in ix <==> marks[i] == mark)
    {
      PositionsAscend(pods, marks, mark, |pods|);
      forall i: nat | i < |pods| ensures i in Positions(marks, mark, |pods|) <==> marks[i] == mark {
        PositionsAreExact(pods, marks, mark, |pods|, i);
      }
    }
    SplitLosesNothing(pods, budgets);
  }

  lemma SplitLosesNothing(pods: seq<Pod>, budgets: seq<Budget>)
    ensures multiset(Violating(pods, budgets)) + multiset(NonViolating(pods, budgets)) == multiset(pods)
  {
    assert pods[..|pods|] == pods;
    forall q: Pod
      ensures multiset(Violating(pods, budgets))[q] + multiset(NonViolating(pods, budgets))[q] == multiset(pods)[q]
    {
      PartCounts(pods, Marks(pods, budgets), |pods|, q);
    }
  }

  // ----- the budgets -----

  lemma {:induction false} CoveredCountIsCardinality(b: Budget, pods: seq<Pod>, n: nat)
    requires n <= |pods|
    ensures CoveredCount(b, pods[..n]) == |set k: nat | k < n && Covers(b, pods[k])|
  {
    if n > 0 {
      CoveredCountIsCardinality(b, pods, n - 1);
      PrefixSnoc(pods, n);
      CoveredCountAppend(b, pods[..n - 1], pods[n - 1]);
      var front := set k: nat | k < n - 1 && Covers(b, pods[k]);
      assert (set k: nat | k < n && Covers(b, pods[k])) == if Covers(b, pods[n - 1]) then front + {n - 1} else front;
    }
  }

  /** A pod violates exactly if it spends from a budget that allows fewer disruptions than the pods up to it spend. Only pods with
      labels spend, from budgets of their namespace whose selector parses, is not empty and matches, and which do not list them as disrupted. */
  lemma ViolatesIff(pods: seq<Pod>, budgets: seq<Budget>, i: nat, spends: (Budget, Pod) -> bool)
    requires i < |pods|
    requires forall b: Budget, p: Pod :: spends(b, p) <==>
               && p.labels != map[] && b.namespace == p.namespace && b.selector != Unparsable && b.selector != Empty
               && b.selector.matches(p.labels) && p.name !in b.disruptedPods
    ensures Violates(pods, budgets, i) <==>
            exists j | 0 <= j < |budgets| ::
              spends(budgets[j], pods[i]) && |set k: nat | k <= i && spends(budgets[j], pods[k])| > budgets[j].allowed
  {
    forall j | 0 <= j < |budgets|
      ensures spends(budgets[j], pods[i]) == Covers(budgets[j], pods[i])
      ensures CoveredCount(budgets[j], pods[..i + 1]) == |set k: nat | k <= i && spends(budgets[j], pods[k])|
    {
      CoveredCountIsCardinality(budgets[j], pods, i + 1);
      assert (set k: nat | k < i + 1 && Covers(budgets[j], pods[k])) == set k: nat | k <= i && spends(budgets[j], pods[k]);
    }
  }

  lemma {:induction false} CoveredPart(b: Budget, pods: seq<Pod>, marks: seq<bool>, n: nat)
    requires n <= |pods| == |marks|
    ensures CoveredCount(b, Part(pods, marks, false, n)) <= CoveredCount(b, pods[..n])
  {
    if n > 0 {
      var front := Part(pods, marks, false, n - 1);
      CoveredPart(b, pods, marks, n - 1);
      assert pods[..n] == pods[..n - 1] + [pods[n - 1]];
      CoveredCountAppend(b, pods[..n - 1], pods[n - 1]);
      CoveredCountAppend(b, front, pods[n - 1]);
    }
  }

  lemma UnmarkedIsCovered(pods: seq<Pod>, budgets: seq<Budget>, i: nat, j: nat)
    requires i < |pods| && j < |budgets| && !Violates(pods, budgets, i)
    ensures Covers(budgets[j], pods[i]) ==> CoveredCount(budgets[j], pods[..i + 1]) <= budgets[j].allowed
  {
  }

  lemma {:induction false} UnmarkedWithinBudget(pods: seq<Pod>, budgets: seq<Budget>, j: nat, n: nat)
    requires n <= |pods| && j < |budgets|
    ensures var covered := CoveredCount(budgets[j], Part(pods, Marks(pods, budgets), false, n));
            covered == 0 || covered <= budgets[j].allowed
  {
    if n > 0 {
      var marks := Marks(pods, budgets);
      var b, front, p := budgets[j], Part(pods, marks, false, n - 1), pods[n - 1];
      UnmarkedWithinBudget(pods, budgets, j, n - 1);
      if marks[n - 1] {
        assert Part(pods, marks, false, n) == front;
      } else if Covers(b, p) {
        CoveredPart(b, pods, marks, n);
        UnmarkedIsCovered(pods, budgets, n - 1, j);
      } else {
        assert Part(pods, marks, false, n) == front + [p];
        CoveredCountAppend(b, front, p);
      }
    }
  }

  /** Disrupting all the non-violating pods together stays within every budget. */
  lemma NonViolatingWithinBudget(pods: seq<Pod>, budgets: seq<Budget>, j: nat)
    requires j < |budgets|
    ensures var covered := CoveredCount(budgets[j], NonViolating(pods, budgets));
            covered == 0 || covered <= budgets[j].allowed
  {
    UnmarkedWithinBudget(pods, budgets, j, |pods|);
  }
}
