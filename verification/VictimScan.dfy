// The first half of victim selection: walk over the pods of a node, least
// important first, and take out every pod that the preemptor may evict. Each
// removal updates the quotas that the next decision reads.
module VictimScan {
  import opened Pods
  import opened ElasticQuota
  import opened Ledger

  /** beyondMin: usage plus the request of the preemptor would exceed the Min of its own quota. */
  ghost predicate BeyondMin(quotas: Quotas, preemptor: Pod) {
    && preemptor.namespace in quotas
    && var q := quotas[preemptor.namespace]; OverUsed(q.used, Request(preemptor), q.min)
  }

  ghost predicate Takes(preemptor: Pod, beyondMin: bool, quotas: Quotas, p: Pod) {
    if preemptor.namespace !in quotas then
      p.namespace !in quotas && p.priority < preemptor.priority
    else if beyondMin then
      p.namespace == preemptor.namespace && p.priority < preemptor.priority
    else
      && p.namespace in quotas && p.namespace != preemptor.namespace
      && MoreThanMin(quotas[p.namespace].used, quotas[p.namespace].min)
  }

  /** The quotas after the given pods have been taken out one by one. */
  ghost function Stripped(quotas: Quotas, pods: seq<Pod>): Quotas {
    if pods == [] then quotas else Exclude(Stripped(quotas, pods[..|pods| - 1]), pods[|pods| - 1])
  }

  /** The potential victims among scan, in scan order. */
  ghost function Taken(preemptor: Pod, beyondMin: bool, quotas: Quotas, scan: seq<Pod>): seq<Pod> {
    if scan == [] then []
    else
      var front := Taken(preemptor, beyondMin, quotas, scan[..|scan| - 1]);
      if Takes(preemptor, beyondMin, Stripped(quotas, front), scan[|scan| - 1]) then front + [scan[|scan| - 1]] else front
  }

  lemma TakenSnoc(preemptor: Pod, beyondMin: bool, quotas: Quotas, scan: seq<Pod>, p: Pod)
    ensures Taken(preemptor, beyondMin, quotas, scan + [p]) ==
            var front := Taken(preemptor, beyondMin, quotas, scan);
            if Takes(preemptor, beyondMin, Stripped(quotas, front), p) then front + [p] else front
  {
    assert (scan + [p])[..|scan|] == scan;
  }

  lemma StrippedSnoc(quotas: Quotas, pods: seq<Pod>, p: Pod)
    ensures Stripped(quotas, pods + [p]) == Exclude(Stripped(quotas, pods), p)
  {
    assert (pods + [p])[..|pods|] == pods;
  }

  /** Taking pods out changes no limits and loses no quota; a ledger only ever loses pods. */
  lemma {:induction false} StrippedFrame(quotas: Quotas, pods: seq<Pod>)
    ensures Stripped(quotas, pods).Keys == quotas.Keys
    ensures forall ns | ns in quotas :: Stripped(quotas, pods)[ns].min == quotas[ns].min
    ensures forall ns | ns in quotas :: Stripped(quotas, pods)[ns].max == quotas[ns].max
    ensures forall ns | ns in quotas :: Stripped(quotas, pods)[ns].pods <= quotas[ns].pods
    ensures forall p | p in pods && p.namespace in quotas && p.uid != "" :: p.uid !in Stripped(quotas, pods)[p.namespace].pods
    ensures TracksMore(quotas, Stripped(quotas, pods))
    decreases |pods|
  {
    if pods != [] {
      var n := |pods| - 1;
      StrippedFrame(quotas, pods[..n]);
      EntriesStay(Stripped(quotas, pods[..n]), pods[n]);
      assert pods == pods[..n] + [pods[n]];
    }
  }

  /** The pods of one namespace, in order. */
  function Of(ns: string, pods: seq<Pod>): seq<Pod> {
    if pods == [] then []
    else
      var front := Of(ns, pods[..|pods| - 1]);
      if pods[|pods| - 1].namespace == ns then front + [pods[|pods| - 1]] else front
  }

  lemma OfSnoc(ns: string, pods: seq<Pod>, p: Pod)
    ensures Of(ns, pods + [p]) == if p.namespace == ns then Of(ns, pods) + [p] else Of(ns, pods)
  {
    assert (pods + [p])[..|pods|] == pods;
  }

  /** Potential victims are pods of the scan, each taken at most once if the scan lists it once. */
  lemma {:induction false} TakenFromScan(preemptor: Pod, beyondMin: bool, quotas: Quotas, scan: seq<Pod>)
    ensures multiset(Taken(preemptor, beyondMin, quotas, scan)) <= multiset(scan)
    decreases |scan|
  {
    if scan != [] {
      var before, p := scan[..|scan| - 1], scan[|scan| - 1];
      assert scan == before + [p];
      TakenFromScan(preemptor, beyondMin, quotas, before);
      TakenSnoc(preemptor, beyondMin, quotas, before, p);
      SubBagSnoc(Taken(preemptor, beyondMin, quotas, before), before, p);
    }
  }

  lemma SubBagSnoc(part: seq<Pod>, all: seq<Pod>, p: Pod)
    requires multiset(part) <= multiset(all)
    ensures multiset(part) <= multiset(all + [p]) && multiset(part + [p]) <= multiset(all + [p])
  {
  }

  /** Case "beyond its Min", or no quota at all: only lower-priority pods of the preemptor's own
      namespace are raided; without a quota, only lower-priority pods that have no quota either. */
  lemma {:induction false} OnlyLowerPriorityPeers(preemptor: Pod, quotas: Quotas, scan: seq<Pod>)
    requires preemptor.namespace in quotas ==> BeyondMin(quotas, preemptor)
    ensures forall p | p in Taken(preemptor, BeyondMin(quotas, preemptor), quotas, scan) ::
              && p in scan && p.priority < preemptor.priority
              && (if preemptor.namespace in quotas then p.namespace == preemptor.namespace else p.namespace !in quotas)
    decreases |scan|
  {
    if scan != [] {
      var before, p := scan[..|scan| - 1], scan[|scan| - 1];
      assert scan == before + [p];
      OnlyLowerPriorityPeers(preemptor, quotas, before);
      TakenSnoc(preemptor, BeyondMin(quotas, preemptor), quotas, before, p);
      StrippedFrame(quotas, Taken(preemptor, BeyondMin(quotas, preemptor), quotas, before));
    }
  }

  ghost predicate AboveMin(q: Quota) {
    MoreThanMin(q.used, q.min)
  }

  ghost predicate Borrows(quotas: Quotas, ns: string) {
    ns in quotas && AboveMin(quotas[ns])
  }

  /** Case "within its Min": when a pod is taken, its quota is another one and is above its Min at that moment. */
  lemma {:induction false} OnlyBorrowersAreRaided(preemptor: Pod, quotas: Quotas, scan: seq<Pod>, k: nat)
    requires preemptor.namespace in quotas && !BeyondMin(quotas, preemptor)
    requires k < |Taken(preemptor, false, quotas, scan)|
    ensures var taken := Taken(preemptor, false, quotas, scan);
            taken[k].namespace != preemptor.namespace && Borrows(Stripped(quotas, taken[..k]), taken[k].namespace)
    decreases |scan|
  {
    var n := |scan| - 1;
    var front := Taken(preemptor, false, quotas, scan[..n]);
    var taken := Taken(preemptor, false, quotas, scan);
    if k < |front| {
      OnlyBorrowersAreRaided(preemptor, quotas, scan[..n], k);
      assert taken[..k] == front[..k];
    } else {
      assert taken[..k] == front;
      StrippedFrame(quotas, front);
    }
  }

  ghost predicate RaidedInOrder(quotas: Quotas, taken: seq<Pod>, scan: seq<Pod>, ns: string) {
    && Of(ns, taken) <= Of(ns, scan)
    && (Of(ns, taken) != Of(ns, scan) ==> !Borrows(Stripped(quotas, taken), ns))
  }

  lemma RaidStep(preemptor: Pod, quotas: Quotas, scan: seq<Pod>, p: Pod, ns: string)
    requires preemptor.namespace in quotas && ns in quotas && ns != preemptor.namespace
    requires RaidedInOrder(quotas, Taken(preemptor, false, quotas, scan), scan, ns)
    ensures RaidedInOrder(quotas, Taken(preemptor, false, quotas, scan + [p]), scan + [p], ns)
  {
    var front := Taken(preemptor, false, quotas, scan);
    TakenSnoc(preemptor, false, quotas, scan, p);
    StrippedFrame(quotas, front);
    StrippedSnoc(quotas, front, p);
    OfSnoc(ns, scan, p);
    OfSnoc(ns, front, p);
    if p.namespace != ns {
      assert Takes(preemptor, false, Stripped(quotas, front), p) ==> Of(ns, front + [p]) == Of(ns, front);
    }
  }

  /** From each other quota the first pods in scan order are taken, and the scan spares a
      pod of it only once the quota is no longer above its Min. */
  lemma {:induction false} RaidStopsAtMin(preemptor: Pod, quotas: Quotas, scan: seq<Pod>, ns: string)
    requires preemptor.namespace in quotas && !BeyondMin(quotas, preemptor)
    requires ns in quotas && ns != preemptor.namespace
    ensures RaidedInOrder(quotas, Taken(preemptor, BeyondMin(quotas, preemptor), quotas, scan), scan, ns)
    decreases |scan|
  {
    if scan != [] {
      var n := |scan| - 1;
      RaidStopsAtMin(preemptor, quotas, scan[..n], ns);
      RaidStep(preemptor, quotas, scan[..n], scan[n], ns);
      assert scan == scan[..n] + [scan[n]];
    }
  }

  // ----- exactly which pods are taken, read off the ledger and the scan -----

  /** The pods for which keep holds, in order. */
  function Those(pods: seq<Pod>, keep: Pod -> bool): seq<Pod> {
    if pods == [] then []
    else
      var front := Those(pods[..|pods| - 1], keep);
      if keep(pods[|pods| - 1]) then front + [pods[|pods| - 1]] else front
  }

  lemma {:induction false} PeersAreTaken(preemptor: Pod, beyondMin: bool, quotas: Quotas, scan: seq<Pod>, keep: Pod -> bool)
    requires preemptor.namespace in quotas ==> beyondMin
    requires forall p :: keep(p) <==>
               && p.priority < preemptor.priority
               && (if preemptor.namespace in quotas then p.namespace == preemptor.namespace else p.namespace !in quotas)
    ensures Taken(preemptor, beyondMin, quotas, scan) == Those(scan, keep)
    decreases |scan|
  {
    if scan != [] {
      var front, p := scan[..|scan| - 1], scan[|scan| - 1];
      PeersAreTaken(preemptor, beyondMin, quotas, front, keep);
      StrippedFrame(quotas, Taken(preemptor, beyondMin, quotas, front));
    }
  }

  /** own is the beginning of all up to where the quota, having lost these pods, is no longer above its Min. */
  ghost predicate RaidedToMin(quotas: Quotas, ns: string, own: seq<Pod>, all: seq<Pod>)
    requires ns in quotas
  {
    && own <= all
    && (forall k | 0 <= k < |own| :: AboveMin(After(quotas, ns, own[..k])))
    && (own != all ==> !AboveMin(After(quotas, ns, own)))
  }

  /** The ledger of ns once the given pods have gone. */
  ghost function After(quotas: Quotas, ns: string, gone: seq<Pod>): Quota
    requires ns in quotas
  {
    if gone == [] then quotas[ns] else WithoutPod(After(quotas, ns, gone[..|gone| - 1]), gone[|gone| - 1])
  }

  lemma AfterSnoc(quotas: Quotas, ns: string, gone: seq<Pod>, p: Pod)
    requires ns in quotas
    ensures After(quotas, ns, gone + [p]) == WithoutPod(After(quotas, ns, gone), p)
  {
    assert (gone + [p])[..|gone|] == gone;
  }

  /** A ledger depends on the pods of its own namespace alone. */
  lemma {:induction false} StrippedOwn(quotas: Quotas, ns: string, pods: seq<Pod>)
    requires ns in quotas
    ensures ns in Stripped(quotas, pods) && Stripped(quotas, pods)[ns] == After(quotas, ns, Of(ns, pods))
    decreases |pods|
  {
    if pods != [] {
      var front, p := pods[..|pods| - 1], pods[|pods| - 1];
      assert pods == front + [p];
      StrippedOwn(quotas, ns, front);
      OfSnoc(ns, front, p);
      AfterSnoc(quotas, ns, Of(ns, front), p);
      StrippedSnoc(quotas, front, p);
    }
  }

  lemma RaidedToMinSnoc(quotas: Quotas, ns: string, own: seq<Pod>, all: seq<Pod>, p: Pod)
    requires ns in quotas && RaidedToMin(quotas, ns, own, all)
    ensures AboveMin(After(quotas, ns, own)) ==> RaidedToMin(quotas, ns, own + [p], all + [p])
    ensures !AboveMin(After(quotas, ns, own)) ==> RaidedToMin(quotas, ns, own, all + [p])
  {
    if AboveMin(After(quotas, ns, own)) {
      assert (own + [p])[..|own|] == own;
      assert forall k | 0 <= k < |own| :: (own + [p])[..k] == own[..k];
    }
  }

  lemma {:induction false} BorrowersAreRaided(preemptor: Pod, quotas: Quotas, scan: seq<Pod>, ns: string)
    requires preemptor.namespace in quotas
    ensures var own := Of(ns, Taken(preemptor, false, quotas, scan));
            if ns in quotas && ns != preemptor.namespace then RaidedToMin(quotas, ns, own, Of(ns, scan)) else own == []
    decreases |scan|
  {
    if scan != [] {
      var before, p := scan[..|scan| - 1], scan[|scan| - 1];
      var front := Taken(preemptor, false, quotas, before);
      assert scan == before + [p];
      BorrowersAreRaided(preemptor, quotas, before, ns);
      TakenSnoc(preemptor, false, quotas, before, p);
      StrippedFrame(quotas, front);
      OfSnoc(ns, before, p);
      OfSnoc(ns, front, p);
      if ns in quotas {
        StrippedOwn(quotas, ns, front);
        if ns != preemptor.namespace {
          RaidedToMinSnoc(quotas, ns, Of(ns, front), Of(ns, before), p);
        }
      }
    }
  }
}
