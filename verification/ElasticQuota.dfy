// The elastic quotas: one usage ledger per namespace, as a value (Quota) that
// the theorems speak about and as the objects that the plugin updates in place.
module ElasticQuota {
  import opened Sums
  import opened Resources
  import opened Pods

  /** pods holds the keys of the pods whose requests used accounts for. */
  datatype Quota = Quota(pods: set<string>, min: Resource, max: Resource, used: Resource)

  type Quotas = map<string, Quota>

  // ----- one quota -----

  /** A pod without a UID has no key; adding or deleting it is an error that changes nothing. */
  function WithPod(q: Quota, p: Pod): Quota {
    if p.uid == "" || p.uid in q.pods then q
    else q.(pods := q.pods + {p.uid}, used := Plus(q.used, Request(p)))
  }

  function WithoutPod(q: Quota, p: Pod): Quota {
    if p.uid == "" || p.uid !in q.pods then q
    else q.(pods := q.pods - {p.uid}, used := Minus(q.used, Request(p)))
  }

  /** Only the scalars that the pod itself asks for are compared with the limit. */
  ghost predicate OverUsed(used: Resource, request: Resource, limit: Resource) {
    exists d: Dimension :: (d.Scalar? ==> d.name in request.scalars) && used.At(d) + request.At(d) > limit.At(d)
  }

  ghost predicate MoreThanMin(used: Resource, min: Resource) {
    exists d: Dimension :: (d.Scalar? ==> d.name in used.scalars) && used.At(d) > min.At(d)
  }

  // ----- all quotas together -----

  ghost function UsedAt(quotas: Quotas, d: Dimension): string -> int {
    ns => if ns in quotas then quotas[ns].used.At(d) else 0
  }

  ghost function MinAt(quotas: Quotas, d: Dimension): string -> int {
    ns => if ns in quotas then quotas[ns].min.At(d) else 0
  }

  ghost function TotalUsed(quotas: Quotas, d: Dimension): int {
    Sum(quotas.Keys, UsedAt(quotas, d))
  }

  ghost function TotalMin(quotas: Quotas, d: Dimension): int {
    Sum(quotas.Keys, MinAt(quotas, d))
  }

  /** The dimensions that the aggregate check looks at: the ones with an entry in some ledger or in the request. */
  ghost predicate Tracked(quotas: Quotas, request: Resource, d: Dimension) {
    d.Scalar? ==> d.name in request.scalars || exists ns :: ns in quotas && d.name in quotas[ns].used.scalars
  }

  ghost predicate AggregateOver(quotas: Quotas, request: Resource) {
    exists d: Dimension :: Tracked(quotas, request, d) && TotalUsed(quotas, d) + request.At(d) > TotalMin(quotas, d)
  }

  /** What the check does not look at would pass anyway. */
  ghost predicate Settled(quotas: Quotas, request: Resource) {
    forall d: Dimension | !Tracked(quotas, request, d) :: TotalMin(quotas, d) >= 0
  }

  lemma UntrackedIsUnused(quotas: Quotas, request: Resource, d: Dimension)
    requires !Tracked(quotas, request, d)
    ensures TotalUsed(quotas, d) == 0 && request.At(d) == 0
  {
    SumCongruence(quotas.Keys, UsedAt(quotas, d), _ => 0);
    SumOfZeros(quotas.Keys);
  }

  lemma {:induction false} SumOfZeros(names: set<string>)
    ensures Sum(names, _ => 0) == 0
    decreases |names|
  {
    if names != {} {
      var x :| x in names;
      SumRemove(names, _ => 0, x);
      SumOfZeros(names - {x});
    }
  }

  /** The check is the comparison of the totals in all dimensions, unless it misses one that is untracked and whose Mins
      add up to less than nothing, while no other is exceeded. */
  lemma AggregateIsPointwise(quotas: Quotas, request: Resource)
    ensures (AggregateOver(quotas, request) <==> exists d :: TotalUsed(quotas, d) + request.At(d) > TotalMin(quotas, d)) <==>
            AggregateOver(quotas, request) || Settled(quotas, request)
  {
    forall d: Dimension | !Tracked(quotas, request, d)
      ensures TotalUsed(quotas, d) + request.At(d) > TotalMin(quotas, d) <==> TotalMin(quotas, d) < 0
    {
      UntrackedIsUnused(quotas, request, d);
    }
  }

  /** Equality up to the zero-valued scalar entries that a subtraction leaves behind. */
  ghost predicate SameQuota(q: Quota, r: Quota) {
    q.pods == r.pods && q.min == r.min && q.max == r.max && SameLookups(q.used, r.used)
  }

  ghost predicate SameLedger(quotas: Quotas, others: Quotas) {
    quotas.Keys == others.Keys && forall ns | ns in quotas :: SameQuota(quotas[ns], others[ns])
  }

  /** Every usage entry of the quotas is there in the others as well. */
  ghost predicate TracksMore(quotas: Quotas, others: Quotas) {
    forall ns | ns in quotas :: ns in others && quotas[ns].used.scalars.Keys <= others[ns].used.scalars.Keys
  }

  lemma StaysTracked(quotas: Quotas, others: Quotas, request: Resource, d: Dimension)
    requires TracksMore(quotas, others) && Tracked(quotas, request, d)
    ensures Tracked(others, request, d)
  {
    if d.Scalar? && d.name !in request.scalars {
      var ns :| ns in quotas && d.name in quotas[ns].used.scalars;
      assert ns in others && d.name in others[ns].used.scalars;
    }
  }

  lemma StaysSettled(quotas: Quotas, others: Quotas, request: Resource)
    requires TracksMore(quotas, others) && Settled(quotas, request)
    requires forall d :: TotalMin(quotas, d) == TotalMin(others, d)
    ensures Settled(others, request)
  {
    forall d: Dimension | !Tracked(others, request, d) ensures TotalMin(others, d) >= 0 {
      if Tracked(quotas, request, d) {
        StaysTracked(quotas, others, request, d);
      }
    }
  }

  lemma SameTotals(quotas: Quotas, others: Quotas, d: Dimension)
    requires SameLedger(quotas, others)
    ensures TotalUsed(quotas, d) == TotalUsed(others, d) && TotalMin(quotas, d) == TotalMin(others, d)
  {
    SumCongruence(quotas.Keys, UsedAt(quotas, d), UsedAt(others, d));
    SumCongruence(quotas.Keys, MinAt(quotas, d), MinAt(others, d));
  }

  /** Zero entries left behind in a ledger matter exactly where they draw the check's attention to a negative total Min. */
  lemma LeftoversMatterIff(before: Quotas, after: Quotas, request: Resource)
    requires SameLedger(before, after) && TracksMore(before, after)
    ensures AggregateOver(after, request) <==>
            AggregateOver(before, request) ||
            exists d :: Tracked(after, request, d) && !Tracked(before, request, d) && TotalMin(before, d) < 0
  {
    forall d: Dimension
      ensures TotalUsed(before, d) == TotalUsed(after, d) && TotalMin(before, d) == TotalMin(after, d)
      ensures Tracked(before, request, d) ==> Tracked(after, request, d)
      ensures !Tracked(before, request, d) ==> TotalUsed(before, d) + request.At(d) == 0
    {
      SameTotals(before, after, d);
      if Tracked(before, request, d) {
        StaysTracked(before, after, request, d);
      } else {
        UntrackedIsUnused(before, request, d);
      }
    }
  }

  lemma OneQuotaTotals(ns: string, q: Quota, d: Dimension)
    ensures TotalUsed(map[ns := q], d) == q.used.At(d) && TotalMin(map[ns := q], d) == q.min.At(d)
  {
    var quotas := map[ns := q];
    SumRemove(quotas.Keys, UsedAt(quotas, d), ns);
    SumRemove(quotas.Keys, MinAt(quotas, d), ns);
    assert quotas.Keys - {ns} == {};
  }

  /** For instance, one zero entry of a resource with a negative Min. */
  lemma LeftoverEntryMatters(before: Quota, after: Quota)
    requires before == Quota({}, Resource(0, 0, map["gpu" := -1]), ZERO, ZERO)
    requires after == before.(used := Resource(0, 0, map["gpu" := 0]))
    ensures SameLookups(before.used, after.used)
    ensures !AggregateOver(map["ns" := before], ZERO) && AggregateOver(map["ns" := after], ZERO)
  {
    var gpu := Scalar("gpu");
    OneQuotaTotals("ns", after, gpu);
    assert "ns" in map["ns" := after] && Tracked(map["ns" := after], ZERO, gpu);
    forall d: Dimension | Tracked(map["ns" := before], ZERO, d)
      ensures TotalUsed(map["ns" := before], d) <= TotalMin(map["ns" := before], d)
    {
      OneQuotaTotals("ns", before, d);
    }
  }

  // The running totals of the aggregate check after the quotas in done have been added.
  ghost predicate AddedUp(quotas: Quotas, done: set<string>, used: Resource, min: Resource) {
    && (forall d :: used.At(d) == Sum(done, UsedAt(quotas, d)))
    && (forall d :: min.At(d) == Sum(done, MinAt(quotas, d)))
    && (forall n :: n in used.scalars <==> exists ns :: ns in done && ns in quotas && n in quotas[ns].used.scalars)
  }

  lemma AddUpOne(quotas: Quotas, done: set<string>, ns: string, used: Resource, min: Resource)
    requires ns in quotas && ns !in done && AddedUp(quotas, done, used, min)
    ensures AddedUp(quotas, done + {ns}, Plus(used, quotas[ns].used), Plus(min, quotas[ns].min))
  {
    forall d
      ensures Plus(used, quotas[ns].used).At(d) == Sum(done + {ns}, UsedAt(quotas, d))
      ensures Plus(min, quotas[ns].min).At(d) == Sum(done + {ns}, MinAt(quotas, d))
    {
      SumInsert(done, UsedAt(quotas, d), ns);
      SumInsert(done, MinAt(quotas, d), ns);
    }
  }

  lemma AddedUpVerdict(quotas: Quotas, request: Resource, used: Resource, min: Resource)
    requires AddedUp(quotas, quotas.Keys, used, min)
    ensures MoreThanMin(Plus(used, request), min) == AggregateOver(quotas, request)
  {
    var total := Plus(used, request);
    forall d: Dimension
      ensures total.At(d) == TotalUsed(quotas, d) + request.At(d) && min.At(d) == TotalMin(quotas, d)
      ensures (d.Scalar? ==> d.name in total.scalars) <==> Tracked(quotas, request, d)
    {
    }
  }

  // ----- the objects -----

  method MoreThanMinCheck(used: Resource, min: Resource) returns (over: bool)
    ensures over == MoreThanMin(used, min)
  {
    if used.milliCPU > min.milliCPU {
      assert used.At(CPU) > min.At(CPU);
      return true;
    }
    if used.memory > min.memory {
      assert used.At(Memory) > min.At(Memory);
      return true;
    }
    var done := {};
    while used.scalars.Keys - done != {}
      invariant done <= used.scalars.Keys
      invariant forall n | n in done :: used.At(Scalar(n)) <= min.At(Scalar(n))
      decreases used.scalars.Keys - done
    {
      var n :| n in used.scalars.Keys - done;
      if used.scalars[n] > Lookup(min.scalars, n) {
        assert used.At(Scalar(n)) > min.At(Scalar(n));
        return true;
      }
      done := done + {n};
    }
    return false;
  }

  class ElasticQuotaInfo {
    const min: Resource
    const max: Resource
    var pods: set<string>
    var used: ResourceCell

    constructor (min: Resource, max: Resource)
      ensures fresh(used) && Value() == Quota({}, min, max, ZERO)
    {
      this.min, this.max := min, max;
      pods := {};
      used := new ResourceCell(ZERO);
    }

    ghost function Value(): Quota
      reads this, used
    {
      Quota(pods, min, max, used.Value())
    }

    method AddPodIfNotPresent(p: Pod) returns (ok: bool)
      modifies this`pods, used
      ensures ok == (p.uid != "")
      ensures Value() == WithPod(old(Value()), p)
    {
      if p.uid == "" { return false; }
      if p.uid in pods { return true; }
      pods := pods + {p.uid};
      var request := ComputePodResourceRequest(p);
      used.Add(request);
      return true;
    }

    method DeletePodIfPresent(p: Pod) returns (ok: bool)
      modifies this`pods, used
      ensures ok == (p.uid != "")
      ensures Value() == WithoutPod(old(Value()), p)
    {
      if p.uid == "" { return false; }
      if p.uid !in pods { return true; }
      pods := pods - {p.uid};
      var request := ComputePodResourceRequest(p);
      used.Subtract(request);
      return true;
    }

    method OverUsedCheck(request: Resource, limit: Resource) returns (over: bool)
      ensures over == OverUsed(used.Value(), request, limit)
    {
      if used.milliCPU + request.milliCPU > limit.milliCPU {
        assert used.Value().At(CPU) + request.At(CPU) > limit.At(CPU);
        return true;
      }
      if used.memory + request.memory > limit.memory {
        assert used.Value().At(Memory) + request.At(Memory) > limit.At(Memory);
        return true;
      }
      var done := {};
      while request.scalars.Keys - done != {}
        invariant done <= request.scalars.Keys
        invariant forall n | n in done :: used.Value().At(Scalar(n)) + request.At(Scalar(n)) <= limit.At(Scalar(n))
        decreases request.scalars.Keys - done
      {
        var n :| n in request.scalars.Keys - done;
        if request.scalars[n] + Lookup(used.scalars, n) > Lookup(limit.scalars, n) {
          assert used.Value().At(Scalar(n)) + request.At(Scalar(n)) > limit.At(Scalar(n));
          return true;
        }
        done := done + {n};
      }
      return false;
    }

    /** A deep copy: neither the record nor its usage vector is shared with the original. */
    method Clone() returns (c: ElasticQuotaInfo)
      ensures fresh(c) && fresh(c.used)
      ensures c.Value() == Value()
    {
      c := new ElasticQuotaInfo(min, max);
      c.used := new ResourceCell(Resource(used.milliCPU, used.memory, used.scalars));
      c.pods := pods;
    }
  }

  /** The map from namespaces to quotas. quotas is its value; no two entries share an object. */
  class ElasticQuotaInfos {
    var infos: map<string, ElasticQuotaInfo>
    ghost var quotas: Quotas
    ghost var Repr: set<object>

    ghost predicate Valid()
      reads this, Repr
    {
      && this in Repr
      && infos.Keys == quotas.Keys
      && (forall ns | ns in infos ::
            infos[ns] in Repr && infos[ns].used in Repr && infos[ns].Value() == quotas[ns])
      && (forall a, b | a in infos && b in infos && a != b ::
            infos[a] != infos[b] && infos[a].used != infos[b].used)
    }

    constructor ()
      ensures Valid() && fresh(Repr) && quotas == map[]
    {
      infos, quotas, Repr := map[], map[], {this};
    }

    method AddPodIfNotPresent(p: Pod) returns (ok: bool)
      requires Valid() && p.namespace in quotas
      modifies Repr
      ensures Valid() && Repr == old(Repr)
      ensures ok == (p.uid != "")
      ensures quotas == old(quotas)[p.namespace := WithPod(old(quotas)[p.namespace], p)]
    {
      ok := infos[p.namespace].AddPodIfNotPresent(p);
      quotas := quotas[p.namespace := WithPod(quotas[p.namespace], p)];
    }

    method DeletePodIfPresent(p: Pod) returns (ok: bool)
      requires Valid() && p.namespace in quotas
      modifies Repr
      ensures Valid() && Repr == old(Repr)
      ensures ok == (p.uid != "")
      ensures quotas == old(quotas)[p.namespace := WithoutPod(old(quotas)[p.namespace], p)]
    {
      ok := infos[p.namespace].DeletePodIfPresent(p);
      quotas := quotas[p.namespace := WithoutPod(quotas[p.namespace], p)];
    }

    /** Adds the ledgers up in whatever order the map yields them. */
    method AggregatedMinOverUsedWithPod(request: Resource) returns (over: bool)
      requires Valid()
      ensures over == AggregateOver(quotas, request)
    {
      ghost var done := {};
      var used, min, todo := ZERO, ZERO, infos.Keys;
      while todo != {}
        invariant todo <= quotas.Keys && done == quotas.Keys - todo
        invariant AddedUp(quotas, done, used, min)
        decreases todo
      {
        var ns :| ns in todo;
        var info := infos[ns];
        AddUpOne(quotas, done, ns, used, min);
        used := Plus(used, Resource(info.used.milliCPU, info.used.memory, info.used.scalars));
        min := Plus(min, info.min);
        todo, done := todo - {ns}, done + {ns};
      }
      assert done == quotas.Keys;
      AddedUpVerdict(quotas, request, used, min);
      over := MoreThanMinCheck(Plus(used, request), min);
    }

    method Clone() returns (c: ElasticQuotaInfos)
      requires Valid()
      ensures c.Valid() && fresh(c.Repr)
      ensures c.quotas == quotas
    {
      c := new ElasticQuotaInfos();
      var todo := infos.Keys;
      while todo != {}
        invariant c.Valid() && fresh(c.Repr)
        invariant todo <= quotas.Keys
        invariant forall ns :: ns in c.quotas <==> ns in quotas && ns !in todo
        invariant forall ns | ns in c.quotas :: c.quotas[ns] == quotas[ns]
        decreases todo
      {
        var ns :| ns in todo;
        c.CloneEntry(this, ns);
        todo := todo - {ns};
      }
    }

    method CloneEntry(from: ElasticQuotaInfos, ns: string)
      requires from != this && Valid() && from.Valid() && ns in from.quotas
      modifies this
      ensures Valid() && fresh(Repr - old(Repr))
      ensures quotas == old(quotas)[ns := from.quotas[ns]]
    {
      var copy := from.infos[ns].Clone();
      Assign(ns, copy);
    }

    /** Assigns a map entry whose usage vector may be the one of the entry it replaces. */
    method Assign(ns: string, info: ElasticQuotaInfo)
      requires Valid()
      requires info !in Repr
      requires info.used !in Repr || (ns in infos && info.used == infos[ns].used)
      modifies this
      ensures Valid() && Repr == old(Repr) + {info, info.used}
      ensures infos == old(infos)[ns := info]
      ensures quotas == old(quotas)[ns := info.Value()]
    {
      infos := infos[ns := info];
      quotas := quotas[ns := info.Value()];
      Repr := Repr + {info, info.used};
    }

    method Delete(ns: string)
      requires Valid()
      modifies this
      ensures Valid() && Repr == old(Repr)
      ensures quotas == old(quotas) - {ns}
    {
      infos := infos - {ns};
      quotas := quotas - {ns};
    }
  }
}
