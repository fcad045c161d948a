// The plugin object: its event handlers, PreFilter, Reserve and Unreserve, each
// of which performs one step of the ledger state machine in place.
module CapacityScheduling {
  import opened Resources
  import opened Pods
  import opened Wrappers
  import opened ElasticQuota
  import opened Ledger
  import opened Admission

  class Plugin {
    const elasticQuotaInfos: ElasticQuotaInfos

    ghost predicate Valid()
      reads elasticQuotaInfos, elasticQuotaInfos.Repr
    {
      elasticQuotaInfos.Valid()
    }

    ghost function Quotas(): Quotas
      reads elasticQuotaInfos
    {
      elasticQuotaInfos.quotas
    }

    constructor ()
      ensures Valid() && fresh(elasticQuotaInfos.Repr) && Quotas() == map[]
    {
      elasticQuotaInfos := new ElasticQuotaInfos();
    }

    /** Takes a snapshot and decides on it. The live ledger is not touched, and nothing done
        to the snapshot later can reach it: the two have no object in common. */
    method PreFilter(p: Pod) returns (verdict: Verdict, request: Resource, snapshot: ElasticQuotaInfos)
      requires Valid()
      ensures request == Request(p)
      ensures snapshot.Valid() && fresh(snapshot.Repr) && snapshot.quotas == Quotas()
      ensures verdict == PreFilterVerdict(Quotas(), p)
    {
      snapshot := elasticQuotaInfos.Clone();
      request := ComputePodResourceRequest(p);
      if p.namespace !in snapshot.infos { return Skipped, request, snapshot; }
      var eq := snapshot.infos[p.namespace];
      var over := eq.OverUsedCheck(request, eq.max);
      if over { return MoreThanMax, request, snapshot; }
      over := snapshot.AggregatedMinOverUsedWithPod(request);
      verdict := if over then TotalMoreThanMin else Admitted;
    }

    method Reserve(p: Pod) returns (ok: bool)
      requires Valid()
      modifies elasticQuotaInfos.Repr
      ensures Valid() && fresh(elasticQuotaInfos.Repr - old(elasticQuotaInfos.Repr))
      ensures Quotas() == Step(old(Quotas()), Reserved(p))
      ensures ok <==> p.namespace !in old(Quotas()) || p.uid != ""
    {
      ok := true;
      if p.namespace in elasticQuotaInfos.infos {
        ok := elasticQuotaInfos.AddPodIfNotPresent(p);
      }
    }

    method Unreserve(p: Pod)
      requires Valid()
      modifies elasticQuotaInfos.Repr
      ensures Valid() && fresh(elasticQuotaInfos.Repr - old(elasticQuotaInfos.Repr))
      ensures Quotas() == Step(old(Quotas()), Unreserved(p))
    {
      if p.namespace in elasticQuotaInfos.infos {
        var _ := elasticQuotaInfos.DeletePodIfPresent(p);
      }
    }

    method AddElasticQuota(ns: string, spec: QuotaSpec)
      requires Valid()
      modifies elasticQuotaInfos
      ensures Valid() && fresh(elasticQuotaInfos.Repr - old(elasticQuotaInfos.Repr))
      ensures Quotas() == Step(old(Quotas()), QuotaAdded(ns, spec))
    {
      if ns in elasticQuotaInfos.infos { return; }
      var info := new ElasticQuotaInfo(spec.min, spec.max);
      elasticQuotaInfos.Assign(ns, info);
    }

    /** The new record takes over the pod set and the very usage vector of the old one. */
    method UpdateElasticQuota(ns: string, spec: QuotaSpec)
      requires Valid()
      modifies elasticQuotaInfos
      ensures Valid() && fresh(elasticQuotaInfos.Repr - old(elasticQuotaInfos.Repr))
      ensures Quotas() == Step(old(Quotas()), QuotaUpdated(ns, spec))
    {
      var info := new ElasticQuotaInfo(spec.min, spec.max);
      if ns in elasticQuotaInfos.infos {
        var previous := elasticQuotaInfos.infos[ns];
        info.pods, info.used := previous.pods, previous.used;
      }
      elasticQuotaInfos.Assign(ns, info);
    }

    method DeleteElasticQuota(ns: string)
      requires Valid()
      modifies elasticQuotaInfos
      ensures Valid() && fresh(elasticQuotaInfos.Repr - old(elasticQuotaInfos.Repr))
      ensures Quotas() == Step(old(Quotas()), QuotaDeleted(ns))
    {
      elasticQuotaInfos.Delete(ns);
    }

    method AddPod(p: Pod, listed: Option<seq<QuotaSpec>>)
      requires Valid()
      modifies elasticQuotaInfos.Repr
      ensures Valid() && fresh(elasticQuotaInfos.Repr - old(elasticQuotaInfos.Repr))
      ensures Quotas() == Step(old(Quotas()), PodAdded(p, listed))
    {
      if p.namespace !in elasticQuotaInfos.infos {
        if listed.None? || |listed.value| == 0 { return; }
        var info := new ElasticQuotaInfo(listed.value[0].min, listed.value[0].max);
        elasticQuotaInfos.Assign(p.namespace, info);
      }
      var _ := elasticQuotaInfos.AddPodIfNotPresent(p);
    }

    method UpdatePod(oldPhase: PodPhase, newPhase: PodPhase, p: Pod)
      requires Valid()
      modifies elasticQuotaInfos.Repr
      ensures Valid() && fresh(elasticQuotaInfos.Repr - old(elasticQuotaInfos.Repr))
      ensures Quotas() == Step(old(Quotas()), PodUpdated(oldPhase, newPhase, p))
    {
      if oldPhase == Succeeded || oldPhase == Failed { return; }
      if newPhase != Running && newPhase != Pending {
        if p.namespace in elasticQuotaInfos.infos {
          var _ := elasticQuotaInfos.DeletePodIfPresent(p);
        }
      }
    }

    method DeletePod(p: Pod)
      requires Valid()
      modifies elasticQuotaInfos.Repr
      ensures Valid() && fresh(elasticQuotaInfos.Repr - old(elasticQuotaInfos.Repr))
      ensures Quotas() == Step(old(Quotas()), PodDeleted(p))
    {
      if p.namespace in elasticQuotaInfos.infos {
        var _ := elasticQuotaInfos.DeletePodIfPresent(p);
      }
    }
  }
}
