// What the answer of victim selection guarantees: it is sound, complete, and
// the best that evicting from the potential victims can achieve.
module VictimTheorems {
  import opened Sums
  import opened Resources
  import opened Pods
  import opened Wrappers
  import Admission
  import opened ElasticQuota
  import opened Ledger
  import opened PodDisruption
  import opened VictimScan
  import opened Reprieve
  import opened SelectVictims
  import opened NodeTrial
  import opened VictimSelection

  // ----- evicting some, seen from the original ledger -----

  ghost predicate Unique(pods: seq<Pod>) {
    && Distinct(pods) && (forall p | p in pods :: p.uid != "")
    && forall p, q | p in pods && q in pods && p.uid == q.uid :: p == q
  }

  lemma UniqueFront(front: seq<Pod>, p: Pod)
    requires Unique(front + [p])
    ensures Unique(front) && p !in Elements(front)
    ensures p.uid != "" && forall q | q in front :: q.uid != p.uid
  {
    var all := front + [p];
    assert forall k | 0 <= k < |front| :: all[k] == front[k] && all[|front|] == p;
    assert forall q | q in front :: q in all;
    assert p in all;
  }

  /** The pods that the ledgers account for. */
  ghost function InLedger(quotas: Quotas, s: set<Pod>): set<Pod> {
    set p | p in s && Listed(quotas, p.namespace, p.uid)
  }

  /** A pod stays listed, or stays unlisted, while others leave. */
  lemma {:induction false} ListingStays(quotas: Quotas, pods: seq<Pod>, p: Pod)
    requires forall q | q in pods :: q.uid != p.uid
    ensures Listed(Stripped(quotas, pods), p.namespace, p.uid) <==> Listed(quotas, p.namespace, p.uid)
    decreases |pods|
  {
    if pods != [] {
      var n := |pods| - 1;
      assert pods == pods[..n] + [pods[n]];
      ListingStays(quotas, pods[..n], p);
    }
  }

  /** Taking pods out lowers the usage by the requests of those that the ledgers account for. */
  ghost predicate Lowered(quotas: Quotas, base: Quotas, gone: set<Pod>, ns: string, d: Dimension) {
    && base.Keys == quotas.Keys && TotalMin(base, d) == TotalMin(quotas, d)
    && TotalUsed(base, d) == TotalUsed(quotas, d) - Sum(InLedger(quotas, gone), RequestOf(d))
    && (ns in quotas ==> base[ns].used.At(d) == quotas[ns].used.At(d) - Sum(InNamespace(InLedger(quotas, gone), ns), RequestOf(d)))
  }

  lemma ExcludeListed(base: Quotas, p: Pod, ns: string, d: Dimension)
    requires Listed(base, p.namespace, p.uid) && p.uid != ""
    ensures var after := Exclude(base, p);
            && after.Keys == base.Keys && TotalMin(after, d) == TotalMin(base, d)
            && TotalUsed(after, d) == TotalUsed(base, d) - Request(p).At(d)
            && (ns in base ==> after[ns].used.At(d) == base[ns].used.At(d) - if ns == p.namespace then Request(p).At(d) else 0)
  {
    TotalsAfterChange(base, p.namespace, WithoutPod(base[p.namespace], p), d);
  }

  lemma SumsWithOne(listed: set<Pod>, p: Pod, ns: string, d: Dimension)
    requires p !in listed
    ensures Sum(listed + {p}, RequestOf(d)) == Sum(listed, RequestOf(d)) + Request(p).At(d)
    ensures Sum(InNamespace(listed + {p}, ns), RequestOf(d)) ==
            Sum(InNamespace(listed, ns), RequestOf(d)) + if p.namespace == ns then Request(p).At(d) else 0
  {
    SumInsert(listed, RequestOf(d), p);
    InNamespaceInsert(listed, p, ns);
    if p.namespace == ns {
      SumInsert(InNamespace(listed, ns), RequestOf(d), p);
    }
  }

  lemma LoweredByOne(quotas: Quotas, base: Quotas, gone: set<Pod>, p: Pod, ns: string, d: Dimension)
    requires Lowered(quotas, base, gone, ns, d) && p !in gone && p.uid != ""
    requires Listed(base, p.namespace, p.uid) <==> Listed(quotas, p.namespace, p.uid)
    ensures Lowered(quotas, Exclude(base, p), gone + {p}, ns, d)
  {
    if Listed(quotas, p.namespace, p.uid) {
      assert InLedger(quotas, gone + {p}) == InLedger(quotas, gone) + {p};
      ExcludeListed(base, p, ns, d);
      SumsWithOne(InLedger(quotas, gone), p, ns, d);
    } else {
      assert InLedger(quotas, gone + {p}) == InLedger(quotas, gone);
      assert Exclude(base, p) == base;
    }
  }

  lemma {:induction false} StrippedUsage(quotas: Quotas, pods: seq<Pod>, ns: string, d: Dimension)
    requires Unique(pods)
    ensures Lowered(quotas, Stripped(quotas, pods), Elements(pods), ns, d)
    decreases |pods|
  {
    if pods == [] {
      assert InLedger(quotas, Elements(pods)) == {};
      assert InNamespace({}, ns) == {};
    } else {
      var front, p := pods[..|pods| - 1], pods[|pods| - 1];
      assert pods == front + [p];
      UniqueFront(front, p);
      StrippedUsage(quotas, front, ns, d);
      ListingStays(quotas, front, p);
      LoweredByOne(quotas, Stripped(quotas, front), Elements(front), p, ns, d);
      ElementsSnoc(front, p);
    }
  }

  /** A pod that no ledger accounts for at least does not ask for less than nothing. */
  ghost predicate NoCredit(quotas: Quotas, pods: set<Pod>) {
    forall p | p in pods && !Listed(quotas, p.namespace, p.uid) :: WellFormed(p)
  }

  lemma ListedAndOthers(quotas: Quotas, kept: set<Pod>, ns: string, d: Dimension)
    requires NoCredit(quotas, kept)
    ensures Sum(InNamespace(InLedger(quotas, kept), ns), RequestOf(d)) <= Sum(InNamespace(kept, ns), RequestOf(d))
    ensures Sum(InLedger(quotas, kept), RequestOf(d)) <= Sum(WithQuota(kept, quotas), RequestOf(d))
  {
    forall p | p in kept - InLedger(quotas, kept) ensures RequestOf(d)(p) >= 0 {
      RequestIsLeastCover(p, d, 0);
    }
    SumPart(InNamespace(InLedger(quotas, kept), ns), InNamespace(kept, ns), RequestOf(d));
    SumPart(InLedger(quotas, kept), WithQuota(kept, quotas), RequestOf(d));
  }

  lemma SumPart(part: set<Pod>, all: set<Pod>, f: Pod -> int)
    requires part <= all && forall p | p in all - part :: f(p) >= 0
    ensures Sum(part, f) <= Sum(all, f)
  {
    SumUnion(part, all - part, f);
    assert part + (all - part) == all;
    SumNonNegative(all - part, f);
  }

  lemma SplitSums(quotas: Quotas, kept: set<Pod>, victims: set<Pod>, ns: string, d: Dimension)
    requires kept !! victims
    ensures var taken := kept + victims;
            && Sum(InLedger(quotas, taken), RequestOf(d)) ==
               Sum(InLedger(quotas, kept), RequestOf(d)) + Sum(InLedger(quotas, victims), RequestOf(d))
            && Sum(InNamespace(InLedger(quotas, taken), ns), RequestOf(d)) ==
               Sum(InNamespace(InLedger(quotas, kept), ns), RequestOf(d)) + Sum(InNamespace(InLedger(quotas, victims), ns), RequestOf(d))
  {
    var k, v := InLedger(quotas, kept), InLedger(quotas, victims);
    assert InLedger(quotas, kept + victims) == k + v;
    assert InNamespace(k + v, ns) == InNamespace(k, ns) + InNamespace(v, ns);
    SumUnion(k, v, RequestOf(d));
    SumUnion(InNamespace(k, ns), InNamespace(v, ns), RequestOf(d));
  }

  /** Taking only the victims out leaves no more usage than taking everything out and giving the rest back. */
  lemma UsageWithoutVictims(quotas: Quotas, taken: seq<Pod>, kept: set<Pod>, victims: seq<Pod>, ns: string, d: Dimension)
    requires Unique(taken) && Unique(victims) && NoCredit(quotas, kept)
    requires Elements(taken) == kept + Elements(victims) && kept !! Elements(victims)
    ensures var base, after := Stripped(quotas, taken), Stripped(quotas, victims);
            && after.Keys == base.Keys == quotas.Keys
            && (ns in quotas ==> after[ns].used.At(d) <= UsedWith(base, kept, ns, d))
            && TotalUsed(after, d) <= TotalUsedWith(base, kept, d)
            && TotalMin(after, d) == TotalMin(base, d)
  {
    var base := Stripped(quotas, taken);
    StrippedUsage(quotas, taken, ns, d);
    StrippedUsage(quotas, victims, ns, d);
    SplitSums(quotas, kept, Elements(victims), ns, d);
    ListedAndOthers(quotas, kept, ns, d);
    assert WithQuota(kept, base) == WithQuota(kept, quotas);
  }

  lemma OnlyVictimsGone(ctx: Context, quotas: Quotas, taken: seq<Pod>, kept: set<Pod>, victims: seq<Pod>)
    requires Unique(taken) && Unique(victims) && NoCredit(quotas, kept)
    requires Elements(taken) == kept + Elements(victims) && kept !! Elements(victims)
    requires ctx.quotas == Stripped(quotas, taken) && QuotasAllow(ctx, kept)
    ensures !OverQuota(Stripped(quotas, victims), ctx.preemptor)
  {
    var after, ns := Stripped(quotas, victims), ctx.preemptor.namespace;
    forall d
      ensures TotalUsed(after, d) <= TotalUsedWith(ctx.quotas, kept, d) && TotalMin(after, d) == TotalMin(ctx.quotas, d)
      ensures ns in after ==> ns in ctx.quotas && after[ns].used.At(d) <= UsedWith(ctx.quotas, kept, ns, d)
    {
      UsageWithoutVictims(quotas, taken, kept, victims, ns, d);
    }
    StrippedFrame(quotas, victims);
    StrippedFrame(quotas, taken);
  }

  // ----- the theorems -----

  /** Which pods are considered for eviction, going through the node's pods least important first. Without a quota, exactly the
      lower-priority pods that have none either. If the preemptor goes beyond the Min of its quota, exactly the lower-priority
      pods of its own namespace. If not, from every other quota the first pods, exactly as many as it takes for that quota
      to come down to its Min (or all of them), and no pod of its own namespace or without a quota. */
  lemma PotentialVictimsAreExactly(s: Scheduler, preemptor: Pod, onNode: seq<Pod>, quotas: Quotas)
    ensures var scan, taken := s.leastImportantFirst(onNode), PotentialVictims(s, preemptor, onNode, quotas);
            var ns := preemptor.namespace;
            if ns !in quotas then
              taken == Those(scan, (p: Pod) => p.namespace !in quotas && p.priority < preemptor.priority)
            else if exists d: Dimension :: (d.Scalar? ==> d.name in Request(preemptor).scalars) &&
                                           quotas[ns].used.At(d) + Request(preemptor).At(d) > quotas[ns].min.At(d) then
              taken == Those(scan, (p: Pod) => p.namespace == ns && p.priority < preemptor.priority)
            else
              forall other :: if other in quotas && other != ns then RaidedToMin(quotas, other, Of(other, taken), Of(other, scan))
                              else Of(other, taken) == []
  {
    var scan, ns := s.leastImportantFirst(onNode), preemptor.namespace;
    if ns !in quotas {
      PeersAreTaken(preemptor, BeyondMin(quotas, preemptor), quotas, scan,
                    (p: Pod) => p.namespace !in quotas && p.priority < preemptor.priority);
    } else if BeyondMin(quotas, preemptor) {
      PeersAreTaken(preemptor, true, quotas, scan, (p: Pod) => p.namespace == ns && p.priority < preemptor.priority);
    } else {
      forall other
        ensures if other in quotas && other != ns then
                  RaidedToMin(quotas, other, Of(other, PotentialVictims(s, preemptor, onNode, quotas)), Of(other, scan))
                else Of(other, PotentialVictims(s, preemptor, onNode, quotas)) == []
      {
        BorrowersAreRaided(preemptor, quotas, scan, other);
      }
    }
  }

  /** The victims are distinct potential victims, and with exactly them gone the preemptor passes
      the filters and (its quota having enough Max, all quotas together enough Min) the quota checks. */
  lemma SelectionIsSound(s: Scheduler, budgets: seq<Budget>, preemptor: Pod, onNode: seq<Pod>, quotas: Quotas)
    requires s.Valid() && Keyed(onNode)
    requires NoCredit(quotas, Elements(PotentialVictims(s, preemptor, onNode, quotas)))
    requires Selection(s, budgets, preemptor, onNode, quotas).Some?
    ensures var v := Selection(s, budgets, preemptor, onNode, quotas).value;
            && Distinct(v.pods) && Elements(v.pods) <= Elements(PotentialVictims(s, preemptor, onNode, quotas)) <= Elements(onNode)
            && s.fits(Elements(onNode) - Elements(v.pods))
            && !OverQuota(Stripped(quotas, v.pods), preemptor)
  {
    var taken, ctx := PotentialVictims(s, preemptor, onNode, quotas), ContextOf(s, preemptor, onNode, quotas);
    var order, v := ReprieveOrder(s, budgets, preemptor, onNode, quotas), Selection(s, budgets, preemptor, onNode, quotas).value;
    var kept := Kept(ctx, order);
    OrderIsReprievable(s, budgets, preemptor, onNode, quotas);
    KeptAndEvictedPartition(ctx, order);
    KeptIsAdmissible(ctx, order);
    assert ctx.node + kept == Elements(onNode) - Elements(v.pods);
    OrderIsRearrangement(s, budgets, preemptor, onNode, quotas);
    SubBag(taken, onNode);
    UniqueAmong(onNode, taken);
    UniqueAmong(onNode, v.pods);
    OnlyVictimsGone(ctx, quotas, taken, kept, v.pods);
  }

  lemma UniqueAmong(onNode: seq<Pod>, pods: seq<Pod>)
    requires Keyed(onNode) && Distinct(pods) && Elements(pods) <= Elements(onNode)
    requires forall p | p in Elements(pods) :: p.uid != ""
    ensures Unique(pods)
  {
    assert forall p | p in pods :: p in Elements(pods) && p in Elements(onNode);
  }

  function Deletions(pods: seq<Pod>): seq<Event> {
    if pods == [] then [] else Deletions(pods[..|pods| - 1]) + [PodDeleted(pods[|pods| - 1])]
  }

  lemma RunSnoc(quotas: Quotas, es: seq<Event>, e: Event)
    ensures Run(quotas, es + [e]) == Step(Run(quotas, es), e)
  {
    assert (es + [e])[..|es|] == es;
  }

  lemma {:induction false} RunDeletions(quotas: Quotas, es: seq<Event>, pods: seq<Pod>)
    ensures Run(quotas, es + Deletions(pods)) == Stripped(Run(quotas, es), pods)
    decreases |pods|
  {
    if pods == [] {
      assert es + Deletions(pods) == es;
    } else {
      var front, p := pods[..|pods| - 1], pods[|pods| - 1];
      RunDeletions(quotas, es, front);
      RunSnoc(quotas, es + Deletions(front), PodDeleted(p));
      SnocConcat(es, Deletions(front), PodDeleted(p));
    }
  }

  /** Preemption on a snapshot of the live ledger, whatever events have led to it: once the informer has
      reported the deletion of the victims, PreFilter lets the preemptor through. */
  lemma PreemptorIsAdmittedNext(s: Scheduler, budgets: seq<Budget>, preemptor: Pod, onNode: seq<Pod>, es: seq<Event>)
    requires s.Valid() && Keyed(onNode)
    requires NoCredit(Run(map[], es), Elements(PotentialVictims(s, preemptor, onNode, Run(map[], es))))
    requires Selection(s, budgets, preemptor, onNode, Run(map[], es)).Some?
    ensures var v := Selection(s, budgets, preemptor, onNode, Run(map[], es)).value;
            Admission.Succeeds(Run(map[], es + Deletions(v.pods)), preemptor)
  {
    SelectionIsSound(s, budgets, preemptor, onNode, Run(map[], es));
    RunDeletions(map[], es, Selection(s, budgets, preemptor, onNode, Run(map[], es)).value.pods);
  }

  // ----- what numViolating counts -----

  ghost function ViolatingOrder(s: Scheduler, budgets: seq<Budget>, preemptor: Pod, onNode: seq<Pod>, quotas: Quotas): seq<Pod> {
    PodDisruption.Violating(s.mostImportantFirst(PotentialVictims(s, preemptor, onNode, quotas)), budgets)
  }

  /** numViolating is at most the number of PDB-violating victims, and exactly that number if and only if
      the quotas turn down no violating pod that the filters would take back. */
  lemma ViolationCountIsExactIff(s: Scheduler, budgets: seq<Budget>, preemptor: Pod, onNode: seq<Pod>, quotas: Quotas)
    requires s.Valid() && Keyed(onNode)
    requires Selection(s, budgets, preemptor, onNode, quotas).Some?
    ensures var v, ctx := Selection(s, budgets, preemptor, onNode, quotas).value, ContextOf(s, preemptor, onNode, quotas);
            var violating := ViolatingOrder(s, budgets, preemptor, onNode, quotas);
            var violatingVictims := Elements(v.pods) * Elements(violating);
            && Evicted(ctx, violating) <= v.pods && Elements(Evicted(ctx, violating)) == violatingVictims
            && v.numViolating <= |violatingVictims|
            && (v.numViolating == |violatingVictims| <==> NoneForQuotas(ctx, violating))
  {
    var ctx, violating := ContextOf(s, preemptor, onNode, quotas), ViolatingOrder(s, budgets, preemptor, onNode, quotas);
    var order := ReprieveOrder(s, budgets, preemptor, onNode, quotas);
    OrderIsReprievable(s, budgets, preemptor, onNode, quotas);
    EvictedAmong(ctx, violating, order[|violating|..]);
    assert violating + order[|violating|..] == order;
    EvictedPrefix(ctx, violating, order[|violating|..]);
    RejectedAreEvicted(ctx, violating);
    RejectedIsExactIff(ctx, violating);
  }

  /** A preemptor without a quota always gets the exact count. */
  lemma NoQuotaExactCount(s: Scheduler, budgets: seq<Budget>, preemptor: Pod, onNode: seq<Pod>, quotas: Quotas)
    requires s.Valid() && Keyed(onNode) && preemptor.namespace !in quotas
    requires Selection(s, budgets, preemptor, onNode, quotas).Some?
    ensures var v := Selection(s, budgets, preemptor, onNode, quotas).value;
            v.numViolating == |Elements(v.pods) * Elements(ViolatingOrder(s, budgets, preemptor, onNode, quotas))|
  {
    StrippedFrame(quotas, PotentialVictims(s, preemptor, onNode, quotas));
    ViolationCountIsExactIff(s, budgets, preemptor, onNode, quotas);
  }

  const ONE_CPU := Resource(1, 0, map[])

  /** A quota of one CPU that pod p has used up. */
  function UsedUp(p: Pod): Quotas {
    map[p.namespace := Quota({p.uid}, ONE_CPU, ONE_CPU, ONE_CPU)]
  }

  lemma SingletonSorted(pods: seq<Pod>, p: Pod)
    requires multiset(pods) == multiset([p])
    ensures pods == [p]
  {
    assert |pods| == |multiset(pods)| == 1;
    assert pods[0] in multiset(pods);
  }

  lemma UsedUpStripped(p: Pod)
    requires p.uid != "" && Request(p) == ONE_CPU
    ensures Stripped(UsedUp(p), [p]) == map[p.namespace := Quota({}, ONE_CPU, ONE_CPU, ZERO)]
  {
    assert [] + [p] == [p];
    StrippedSnoc(UsedUp(p), [], p);
    assert Subtracted(map[], map[], {}) == map[] && {p.uid} - {p.uid} == {};
  }

  /** One such pod has to go for another. */
  lemma OnlyOneFits(ctx: Context, p: Pod)
    requires ctx.quotas == map[p.namespace := Quota({}, ONE_CPU, ONE_CPU, ZERO)]
    requires p.namespace == ctx.preemptor.namespace && Request(p) == Request(ctx.preemptor) == ONE_CPU
    ensures QuotasAllow(ctx, {}) && !QuotasAllow(ctx, {p})
  {
    var ns := p.namespace;
    assert InNamespace({}, ns) == {} && WithQuota({}, ctx.quotas) == {};
    forall d ensures TotalUsed(ctx.quotas, d) == 0 && TotalMin(ctx.quotas, d) == ONE_CPU.At(d) {
      OneQuotaTotals(ns, ctx.quotas[ns], d);
    }
    assert InNamespace({p}, ns) == {p};
    SumRemove({p}, RequestOf(CPU), p);
    assert {p} - {p} == {};
    assert UsedWith(ctx.quotas, {p}, ns, CPU) == 1;
  }

  lemma OnlyPotentialVictim(s: Scheduler, preemptor: Pod, p: Pod)
    requires s.Valid() && p.namespace == preemptor.namespace && p.priority < preemptor.priority
    requires Request(preemptor) == ONE_CPU
    ensures PotentialVictims(s, preemptor, [p], UsedUp(p)) == [p]
  {
    SingletonSorted(s.leastImportantFirst([p]), p);
    assert ONE_CPU.At(CPU) + ONE_CPU.At(CPU) > ONE_CPU.At(CPU);
    assert BeyondMin(UsedUp(p), preemptor);
    assert [] + [p] == [p];
    TakenSnoc(preemptor, true, UsedUp(p), [], p);
  }

  lemma OnlyPodViolates(b: Budget, p: Pod)
    requires Covers(b, p) && b.allowed == 0
    ensures PodDisruption.Violating([p], [b]) == [p] && NonViolating([p], [b]) == []
  {
    assert [p][..1] == [p];
    CoveredCountAppend(b, [], p);
    assert [] + [p] == [p] && [b][0] == b;
    assert Violates([p], [b], 0);
    var marks := Marks([p], [b]);
    assert |[p]| == 1 && marks[0];
    assert Part([p], marks, true, 1) == Part([p], marks, true, 0) + [p];
    assert Part([p], marks, false, 1) == Part([p], marks, false, 0);
  }

  lemma EvictedByQuota(ctx: Context, p: Pod)
    requires ctx.fits(ctx.node + {p}) && QuotasAllow(ctx, {}) && !QuotasAllow(ctx, {p})
    ensures Evicted(ctx, [p]) == [p] && Rejected(ctx, [p]) == 0
  {
    assert [] + [p] == [p] && {} + {p} == {p};
    LoopSnoc(ctx, [], p);
  }

  /** The count can be too low: a lower-priority pod of the same quota is evicted although its budget
      allows no disruption, and since only the quota stands in its way it is not counted. */
  lemma QuotaEvictionIsNotCounted(s: Scheduler, b: Budget, preemptor: Pod, p: Pod)
    requires s.Valid() && (forall pods :: s.fits(pods))
    requires Covers(b, p) && b.allowed == 0 && p.uid != ""
    requires p.namespace == preemptor.namespace && p.priority < preemptor.priority
    requires Request(p) == Request(preemptor) == ONE_CPU
    ensures Selection(s, [b], preemptor, [p], UsedUp(p)) == Some(Victims([p], 0))
    ensures ViolatingOrder(s, [b], preemptor, [p], UsedUp(p)) == [p]
  {
    var ctx := ContextOf(s, preemptor, [p], UsedUp(p));
    OnlyPotentialVictim(s, preemptor, p);
    SingletonSorted(s.mostImportantFirst([p]), p);
    OnlyPodViolates(b, p);
    assert ReprieveOrder(s, [b], preemptor, [p], UsedUp(p)) == [p] by {
      assert [p] + [] == [p];
    }
    UsedUpStripped(p);
    OnlyOneFits(ctx, p);
    EvictedByQuota(ctx, p);
    assert Admissible(ctx, {});
  }

  /** A node is given up exactly when it has no potential victim, when one of them cannot be
      removed, or when no choice among them would make room. */
  lemma SelectionIsComplete(s: Scheduler, budgets: seq<Budget>, preemptor: Pod, onNode: seq<Pod>, quotas: Quotas)
    requires s.Valid() && DownwardClosed(s.fits) && forall p | p in onNode :: WellFormed(p)
    ensures var taken, ctx := PotentialVictims(s, preemptor, onNode, quotas), ContextOf(s, preemptor, onNode, quotas);
            Selection(s, budgets, preemptor, onNode, quotas).Some? <==>
            taken != [] && (forall p | p in taken :: p.uid != "") && exists back :: back <= Elements(taken) && Admissible(ctx, back)
  {
    var taken, ctx := PotentialVictims(s, preemptor, onNode, quotas), ContextOf(s, preemptor, onNode, quotas);
    TakenFromScan(preemptor, BeyondMin(quotas, preemptor), quotas, s.leastImportantFirst(onNode));
    SubBag(taken, onNode);
    if back :| back <= Elements(taken) && Admissible(ctx, back) {
      FewerPodsStayAdmissible(ctx, {}, back);
    }
    assert {} <= Elements(taken);
  }

  /** Any other choice of victims that would also do spares less: going through the potential
      victims, PDB-violating ones first and each group by importance, the first pod on which the
      two choices differ is one that the selection keeps and the other choice evicts. */
  lemma SelectionIsBest(s: Scheduler, budgets: seq<Budget>, preemptor: Pod, onNode: seq<Pod>, quotas: Quotas, others: set<Pod>)
    requires s.Valid() && Keyed(onNode) && DownwardClosed(s.fits) && forall p | p in onNode :: WellFormed(p)
    requires Selection(s, budgets, preemptor, onNode, quotas).Some?
    requires var taken := Elements(PotentialVictims(s, preemptor, onNode, quotas));
             others <= taken && Admissible(ContextOf(s, preemptor, onNode, quotas), taken - others)
    ensures var taken := Elements(PotentialVictims(s, preemptor, onNode, quotas));
            var victims := Elements(Selection(s, budgets, preemptor, onNode, quotas).value.pods);
            others == victims ||
            LexGreater(ReprieveOrder(s, budgets, preemptor, onNode, quotas), taken - victims, taken - others)
  {
    var taken, ctx := Elements(PotentialVictims(s, preemptor, onNode, quotas)), ContextOf(s, preemptor, onNode, quotas);
    var order := ReprieveOrder(s, budgets, preemptor, onNode, quotas);
    var victims := Elements(Selection(s, budgets, preemptor, onNode, quotas).value.pods);
    OrderIsReprievable(s, budgets, preemptor, onNode, quotas);
    assert forall p | p in order :: p in Elements(order) && p in Elements(onNode);
    KeptAndEvictedPartition(ctx, order);
    assert Kept(ctx, order) == taken - victims;
    GreedyIsLexGreatest(ctx, order, taken - others);
    if taken - others == taken - victims {
      assert others == taken - (taken - others) == taken - (taken - victims) == victims;
    }
  }
}
