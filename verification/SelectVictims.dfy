// selectVictimsOnNode on the node copy and the quota snapshot that it mutates.
module SelectVictims {
  import opened Sums
  import opened Resources
  import opened Pods
  import opened Wrappers
  import opened ElasticQuota
  import opened Ledger
  import opened PodDisruption
  import opened VictimScan
  import opened Reprieve

  /** The parts of the scheduler that selection relies on: the filter plugins, and the two
      sorts of pods by importance. A sort may place ties as it likes. */
  datatype Scheduler = Scheduler(
    fits: set<Pod> -> bool, leastImportantFirst: seq<Pod> -> seq<Pod>, mostImportantFirst: seq<Pod> -> seq<Pod>)
  {
    ghost predicate Valid() {
      && (forall s :: multiset(leastImportantFirst(s)) == multiset(s))
      && (forall s :: multiset(mostImportantFirst(s)) == multiset(s))
    }
  }

  datatype Victims = Victims(pods: seq<Pod>, numViolating: nat)

  // ----- the specification -----

  ghost function PotentialVictims(s: Scheduler, preemptor: Pod, onNode: seq<Pod>, quotas: Quotas): seq<Pod> {
    Taken(preemptor, BeyondMin(quotas, preemptor), quotas, s.leastImportantFirst(onNode))
  }

  ghost function ContextOf(s: Scheduler, preemptor: Pod, onNode: seq<Pod>, quotas: Quotas): Context {
    var taken := PotentialVictims(s, preemptor, onNode, quotas);
    Context(s.fits, Elements(onNode) - Elements(taken), Stripped(quotas, taken), preemptor)
  }

  /** The potential victims in the order in which the loop tries to give them back. */
  ghost function ReprieveOrder(s: Scheduler, budgets: seq<Budget>, preemptor: Pod, onNode: seq<Pod>, quotas: Quotas): seq<Pod> {
    var order := s.mostImportantFirst(PotentialVictims(s, preemptor, onNode, quotas));
    PodDisruption.Violating(order, budgets) + NonViolating(order, budgets)
  }

  ghost function Selection(s: Scheduler, budgets: seq<Budget>, preemptor: Pod, onNode: seq<Pod>, quotas: Quotas): Option<Victims> {
    var taken := PotentialVictims(s, preemptor, onNode, quotas);
    var ctx := ContextOf(s, preemptor, onNode, quotas);
    if taken == [] || (exists p | p in taken :: p.uid == "") || !Admissible(ctx, {}) then None
    else
      Some(Victims(Evicted(ctx, ReprieveOrder(s, budgets, preemptor, onNode, quotas)),
                   Rejected(ctx, PodDisruption.Violating(s.mostImportantFirst(taken), budgets))))
  }

  // ----- the state of the quotas during the loop -----

  ghost function Keys(s: set<Pod>): set<string> {
    set p | p in s :: p.uid
  }

  /** One ledger of the stripped state with exactly the pods of back added again. */
  ghost predicate RestoredQuota(base: Quota, back: set<Pod>, q: Quota) {
    && q.min == base.min && q.max == base.max
    && q.pods == base.pods + Keys(back)
    && forall d :: q.used.At(d) == base.used.At(d) + Sum(back, RequestOf(d))
  }

  ghost predicate RestoredTotals(base: Quotas, back: set<Pod>, quotas: Quotas) {
    forall d :: TotalUsed(quotas, d) == TotalUsedWith(base, back, d) && TotalMin(quotas, d) == TotalMin(base, d)
  }

  ghost predicate Restored(base: Quotas, back: set<Pod>, quotas: Quotas) {
    && quotas.Keys == base.Keys
    && (forall ns | ns in base :: RestoredQuota(base[ns], InNamespace(back, ns), quotas[ns]))
    && RestoredTotals(base, back, quotas)
  }

  /** Adding p to base is a first add, whichever of the other pods are back already. */
  ghost predicate Returnable(base: Quotas, pods: set<Pod>) {
    && (forall p | p in pods :: p.uid != "" && (p.namespace in base ==> p.uid !in base[p.namespace].pods))
    && (forall p, q | p in pods && q in pods && p.uid == q.uid :: p == q)
  }

  lemma NothingRestored(base: Quotas)
    ensures Restored(base, {}, base)
  {
    assert forall ns :: InNamespace({}, ns) == {};
    assert WithQuota({}, base) == {};
  }

  lemma WithPodRestores(base: Quota, back: set<Pod>, p: Pod, q: Quota)
    requires p !in back && p.uid != "" && p.uid !in base.pods && p.uid !in Keys(back)
    requires RestoredQuota(base, back, q)
    ensures RestoredQuota(base, back + {p}, WithPod(q, p))
  {
    forall d ensures Sum(back + {p}, RequestOf(d)) == Sum(back, RequestOf(d)) + Request(p).At(d) {
      SumInsert(back, RequestOf(d), p);
    }
    assert Keys(back + {p}) == Keys(back) + {p.uid};
  }

  lemma WithoutPodRestores(base: Quota, back: set<Pod>, p: Pod, q: Quota)
    requires p !in back && p.uid != "" && p.uid !in base.pods && p.uid !in Keys(back)
    requires RestoredQuota(base, back + {p}, q)
    ensures RestoredQuota(base, back, WithoutPod(q, p))
  {
    forall d ensures Sum(back + {p}, RequestOf(d)) == Sum(back, RequestOf(d)) + Request(p).At(d) {
      SumInsert(back, RequestOf(d), p);
    }
    assert Keys(back + {p}) == Keys(back) + {p.uid};
  }

  lemma TotalUsedWithInsert(base: Quotas, back: set<Pod>, p: Pod, d: Dimension)
    requires p !in back
    ensures TotalUsedWith(base, back + {p}, d) ==
            TotalUsedWith(base, back, d) + if p.namespace in base then Request(p).At(d) else 0
  {
    if p.namespace in base {
      assert WithQuota(back + {p}, base) == WithQuota(back, base) + {p};
      SumInsert(WithQuota(back, base), RequestOf(d), p);
    } else {
      assert WithQuota(back + {p}, base) == WithQuota(back, base);
    }
  }

  /** Replacing one ledger by another with the same Min moves the totals by the difference in usage. */
  lemma TotalsAfterChange(quotas: Quotas, ns: string, q: Quota, d: Dimension)
    requires ns in quotas && q.min == quotas[ns].min
    ensures TotalUsed(quotas[ns := q], d) == TotalUsed(quotas, d) + q.used.At(d) - quotas[ns].used.At(d)
    ensures TotalMin(quotas[ns := q], d) == TotalMin(quotas, d)
  {
    var after := quotas[ns := q];
    assert after.Keys == quotas.Keys;
    SumChangeAt(quotas.Keys, UsedAt(quotas, d), UsedAt(after, d), ns);
    SumCongruence(quotas.Keys, MinAt(quotas, d), MinAt(after, d));
  }

  lemma InNamespaceInsert(s: set<Pod>, p: Pod, ns: string)
    ensures InNamespace(s + {p}, ns) == if p.namespace == ns then InNamespace(s, ns) + {p} else InNamespace(s, ns)
  {
  }

  lemma NewKey(base: Quotas, back: set<Pod>, p: Pod)
    requires p !in back && Returnable(base, back + {p})
    ensures p.uid !in Keys(InNamespace(back, p.namespace))
  {
  }

  lemma IncludeRestores(base: Quotas, back: set<Pod>, p: Pod, quotas: Quotas)
    requires p !in back && Returnable(base, back + {p})
    requires Restored(base, back, quotas)
    ensures Restored(base, back + {p}, Include(quotas, p))
  {
    var ns, after := p.namespace, Include(quotas, p);
    forall n ensures InNamespace(back + {p}, n) == if ns == n then InNamespace(back, n) + {p} else InNamespace(back, n) {
      InNamespaceInsert(back, p, n);
    }
    if ns in base {
      NewKey(base, back, p);
      WithPodRestores(base[ns], InNamespace(back, ns), p, quotas[ns]);
    }
    forall d
      ensures TotalUsed(after, d) == TotalUsedWith(base, back + {p}, d) && TotalMin(after, d) == TotalMin(base, d)
    {
      TotalUsedWithInsert(base, back, p, d);
      if ns in base {
        TotalsAfterChange(quotas, ns, WithPod(quotas[ns], p), d);
      }
    }
  }

  lemma ExcludeRestores(base: Quotas, back: set<Pod>, p: Pod, quotas: Quotas)
    requires p !in back && Returnable(base, back + {p})
    requires Restored(base, back + {p}, quotas)
    ensures Restored(base, back, Exclude(quotas, p))
  {
    var ns, after := p.namespace, Exclude(quotas, p);
    forall n ensures InNamespace(back + {p}, n) == if ns == n then InNamespace(back, n) + {p} else InNamespace(back, n) {
      InNamespaceInsert(back, p, n);
    }
    if ns in base {
      NewKey(base, back, p);
      WithoutPodRestores(base[ns], InNamespace(back, ns), p, quotas[ns]);
      assert p.uid in Keys(InNamespace(back, ns) + {p});
    }
    forall d
      ensures TotalUsed(after, d) == TotalUsedWith(base, back, d) && TotalMin(after, d) == TotalMin(base, d)
    {
      TotalUsedWithInsert(base, back, p, d);
      if ns in base {
        TotalsAfterChange(quotas, ns, WithoutPod(quotas[ns], p), d);
      }
    }
  }

  /** The two quota checks as selectVictimsOnNode performs them. */
  ghost predicate OverQuota(quotas: Quotas, preemptor: Pod) {
    && preemptor.namespace in quotas
    && var q := quotas[preemptor.namespace];
       OverUsed(q.used, Request(preemptor), q.max) || AggregateOver(quotas, Request(preemptor))
  }

  lemma ChecksAgree(ctx: Context, back: set<Pod>, quotas: Quotas)
    requires Restored(ctx.quotas, back, quotas) && TracksMore(ctx.quotas, quotas)
    requires Settled(ctx.quotas, Request(ctx.preemptor))
    ensures OverQuota(quotas, ctx.preemptor) <==> !QuotasAllow(ctx, back)
  {
    StaysSettled(ctx.quotas, quotas, Request(ctx.preemptor));
    AggregateIsPointwise(quotas, Request(ctx.preemptor));
  }
}
