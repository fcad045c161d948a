// The whole of selectVictimsOnNode, and what its answer is worth.
module VictimSelection {
  import opened Sums
  import opened Resources
  import opened Pods
  import opened Wrappers
  import opened ElasticQuota
  import opened PodDisruption
  import opened VictimScan
  import opened Reprieve
  import opened SelectVictims
  import opened NodeTrial

  // ----- rearrangements -----

  lemma DistinctByCount(s: seq<Pod>)
    ensures Distinct(s) <==> forall p :: multiset(s)[p] <= 1
    decreases |s|
  {
    if s != [] {
      var n := |s| - 1;
      DistinctByCount(s[..n]);
      assert s == s[..n] + [s[n]];
      assert multiset(s) == multiset(s[..n]) + multiset{s[n]};
      if Distinct(s) {
        assert s[n] !in s[..n];
        assert multiset(s[..n])[s[n]] == 0;
      } else if Distinct(s[..n]) {
        var i, j :| 0 <= i < j < |s| && s[i] == s[j];
        assert j == n && s[n] in s[..n];
        assert multiset(s)[s[n]] >= 2;
      } else {
        var p :| multiset(s[..n])[p] > 1;
        assert multiset(s)[p] > 1;
      }
    }
  }

  lemma SubBag(part: seq<Pod>, all: seq<Pod>)
    requires multiset(part) <= multiset(all)
    ensures Elements(part) <= Elements(all)
    ensures Distinct(all) ==> Distinct(part)
  {
    forall p | p in part ensures p in all {
      assert p in multiset(part);
    }
    if Distinct(all) {
      DistinctByCount(all);
      DistinctByCount(part);
    }
  }

  lemma KeyedRearranged(pods: seq<Pod>, others: seq<Pod>)
    requires Keyed(pods) && multiset(others) == multiset(pods)
    ensures Keyed(others) && Elements(others) == Elements(pods)
  {
    SubBag(others, pods);
    SubBag(pods, others);
    forall i, j | 0 <= i < j < |others| && others[i].uid == others[j].uid ensures others[i].uid == "" {
      assert others[i] in Elements(pods) && others[j] in Elements(pods);
    }
  }

  /** The reprieve order is a rearrangement of the potential victims. */
  lemma OrderIsRearrangement(s: Scheduler, budgets: seq<Budget>, preemptor: Pod, onNode: seq<Pod>, quotas: Quotas)
    requires s.Valid()
    ensures var taken := PotentialVictims(s, preemptor, onNode, quotas);
            var order := ReprieveOrder(s, budgets, preemptor, onNode, quotas);
            multiset(order) == multiset(taken) && multiset(taken) <= multiset(onNode)
  {
    var taken := PotentialVictims(s, preemptor, onNode, quotas);
    var sorted := s.mostImportantFirst(taken);
    TakenFromScan(preemptor, BeyondMin(quotas, preemptor), quotas, s.leastImportantFirst(onNode));
    SplitLosesNothing(sorted, budgets);
  }

  lemma OrderIsReprievable(s: Scheduler, budgets: seq<Budget>, preemptor: Pod, onNode: seq<Pod>, quotas: Quotas)
    requires s.Valid() && Keyed(onNode)
    requires forall p | p in PotentialVictims(s, preemptor, onNode, quotas) :: p.uid != ""
    ensures var order := ReprieveOrder(s, budgets, preemptor, onNode, quotas);
            && Reprievable(ContextOf(s, preemptor, onNode, quotas), order)
            && Elements(order) == Elements(PotentialVictims(s, preemptor, onNode, quotas)) <= Elements(onNode)
  {
    var taken := PotentialVictims(s, preemptor, onNode, quotas);
    var order := ReprieveOrder(s, budgets, preemptor, onNode, quotas);
    OrderIsRearrangement(s, budgets, preemptor, onNode, quotas);
    SubBag(order, onNode);
    SubBag(order, taken);
    SubBag(taken, order);
    StrippedFrame(quotas, taken);
    KeysDiffer(onNode, order, taken);
  }

  lemma KeysDiffer(onNode: seq<Pod>, order: seq<Pod>, taken: seq<Pod>)
    requires Keyed(onNode) && Elements(order) <= Elements(onNode) && Elements(order) <= Elements(taken)
    requires forall p | p in taken :: p.uid != ""
    ensures forall p | p in order :: p.uid != ""
    ensures forall p, q | p in order && q in onNode && p.uid == q.uid :: p == q
  {
    forall p | p in order ensures p.uid != "" {
      assert p in Elements(order);
    }
    forall p, q | p in order && q in onNode && p.uid == q.uid ensures p == q {
      assert p in Elements(order);
    }
  }

  // ----- the method -----

  lemma StrippedSettled(quotas: Quotas, pods: seq<Pod>, request: Resource)
    requires Settled(quotas, request)
    ensures Settled(Stripped(quotas, pods), request)
  {
    var base := Stripped(quotas, pods);
    StrippedFrame(quotas, pods);
    forall d ensures TotalMin(quotas, d) == TotalMin(base, d) {
      SumCongruence(quotas.Keys, MinAt(quotas, d), MinAt(base, d));
    }
    StaysSettled(quotas, base, request);
  }

  lemma ReprievablePrefix(ctx: Context, first: seq<Pod>, second: seq<Pod>)
    requires Reprievable(ctx, first + second)
    ensures Reprievable(ctx, first)
  {
    assert forall k | 0 <= k < |first| :: (first + second)[k] == first[k];
    assert Elements(first) <= Elements(first + second);
  }

  /** PDB-violating pods first; only their refusals are counted. */
  method ReprieveAll(trial: Trial, violating: seq<Pod>, nonViolating: seq<Pod>, ghost ctx: Context) returns (r: Victims)
    requires trial.Valid() && trial.Tried(ctx, []) && Settled(ctx.quotas, Request(ctx.preemptor))
    requires Reprievable(ctx, [] + violating) && Reprievable(ctx, violating + nonViolating)
    modifies trial.node, trial.infos.Repr
    ensures trial.Valid() && trial.infos.Repr == old(trial.infos.Repr)
    ensures r == Victims(Evicted(ctx, violating + nonViolating), Rejected(ctx, violating))
  {
    var victims, numViolating := trial.ReprievePods(violating, [], ctx, []);
    assert [] + violating == violating;
    var all, uncounted := trial.ReprievePods(nonViolating, victims, ctx, violating);
    r := Victims(all, numViolating);
  }

  /** From the stripped node onwards. */
  method SelectFromStripped(trial: Trial, violating: seq<Pod>, nonViolating: seq<Pod>, ghost ctx: Context) returns (r: Option<Victims>)
    requires trial.Valid() && trial.At(ctx, {}) && Settled(ctx.quotas, Request(ctx.preemptor))
    requires Reprievable(ctx, violating + nonViolating)
    modifies trial.node, trial.infos.Repr
    ensures trial.Valid() && trial.infos.Repr == old(trial.infos.Repr)
    ensures r == if Admissible(ctx, {}) then Some(Victims(Evicted(ctx, violating + nonViolating), Rejected(ctx, violating)))
                 else None
  {
    var fits := trial.FitsAt(ctx, {});
    if !fits { return None; }
    var over := trial.OverQuotaAt(ctx, {});
    if over { return None; }
    ReprievablePrefix(ctx, violating, nonViolating);
    assert [] + violating == violating;
    var v := ReprieveAll(trial, violating, nonViolating, ctx);
    r := Some(v);
  }

  /** Sorts the node's pods and takes the potential victims out. */
  method StripNode(trial: Trial) returns (taken: seq<Pod>, ok: bool)
    requires trial.Valid() && trial.scheduler.Valid()
    modifies trial.node, trial.infos.Repr
    ensures trial.Valid() && trial.infos.Repr == old(trial.infos.Repr)
    ensures var all := PotentialVictims(trial.scheduler, trial.preemptor, old(trial.node.pods), old(trial.infos.quotas));
            var ctx := ContextOf(trial.scheduler, trial.preemptor, old(trial.node.pods), old(trial.infos.quotas));
            if ok then taken == all && (forall p | p in all :: p.uid != "") && trial.At(ctx, {})
            else exists p | p in all :: p.uid == ""
  {
    var beyondMin := false;
    var infos, node, s := trial.infos, trial.node, trial.scheduler;
    ghost var onNode, quotas := node.pods, infos.quotas;
    if trial.preemptor.namespace in infos.infos {
      var eq := infos.infos[trial.preemptor.namespace];
      beyondMin := eq.OverUsedCheck(trial.request, eq.min);
    }
    KeyedRearranged(onNode, s.leastImportantFirst(onNode));
    node.Sort(s.leastImportantFirst);
    taken, ok := trial.TakePotentialVictims(beyondMin);
    NothingRestored(Stripped(quotas, taken));
  }

  method SelectVictimsOnNode(s: Scheduler, budgets: seq<Budget>, preemptor: Pod, request: Resource, node: NodeInfo, infos: ElasticQuotaInfos)
    returns (r: Option<Victims>)
    requires s.Valid() && request == Request(preemptor)
    requires infos.Valid() && node !in infos.Repr && Keyed(node.pods) && Settled(infos.quotas, request)
    modifies node, infos.Repr
    ensures infos.Valid() && infos.Repr == old(infos.Repr)
    ensures r == Selection(s, budgets, preemptor, old(node.pods), old(infos.quotas))
  {
    ghost var onNode, quotas := node.pods, infos.quotas;
    var trial := new Trial(s, preemptor, request, node, infos);
    var taken, ok := StripNode(trial);
    if !ok || |taken| == 0 { return None; }
    var order := s.mostImportantFirst(taken);
    var violating, nonViolating := FilterPodsWithPDBViolation(order, budgets);
    OrderIsReprievable(s, budgets, preemptor, onNode, quotas);
    StrippedSettled(quotas, taken, request);
    r := SelectFromStripped(trial, violating, nonViolating, ContextOf(s, preemptor, onNode, quotas));
  }
}
