// selectVictimsOnNode in its own form: closures that mutate a copy of the node
// and a copy of the quotas, and a loop that adds pods back and takes them out again.
module NodeTrial {
  import opened Resources
  import opened Pods
  import opened ElasticQuota
  import opened Ledger
  import opened VictimScan
  import opened Reprieve
  import opened SelectVictims

  /** Pods on a node are distinct, and a key names at most one of them. */
  ghost predicate Keyed(pods: seq<Pod>) {
    && Distinct(pods)
    && forall i, j | 0 <= i < j < |pods| :: pods[i].uid == pods[j].uid ==> pods[i].uid == ""
  }

  class NodeInfo {
    const name: string
    var pods: seq<Pod>

    constructor (name: string, pods: seq<Pod>)
      ensures this.name == name && this.pods == pods
    {
      this.name, this.pods := name, pods;
    }

    method Sort(order: seq<Pod> -> seq<Pod>)
      modifies this
      ensures pods == order(old(pods))
    {
      pods := order(pods);
    }

    method AddPod(p: Pod)
      modifies this
      ensures pods == old(pods) + [p]
    {
      pods := pods + [p];
    }

    method Clone() returns (c: NodeInfo)
      ensures fresh(c) && c.name == name && c.pods == pods
    {
      c := new NodeInfo(name, pods);
    }

    /** Looks the pod up by its key; the last pod of the list moves into the gap. */
    method RemovePod(p: Pod) returns (ok: bool)
      requires Keyed(pods) && p in pods
      modifies this
      ensures ok <==> p.uid != ""
      ensures Keyed(pods)
      ensures Elements(pods) == if ok then Elements(old(pods)) - {p} else Elements(old(pods))
    {
      if p.uid == "" { return false; }
      var i := 0;
      while pods[i].uid != p.uid
        invariant i < |pods| && pods == old(pods)
        invariant p in pods[i..]
        decreases |pods| - i
      {
        i := i + 1;
      }
      var last := |pods| - 1;
      assert pods[i] == p;
      pods := pods[i := pods[last]][..last];
      RemovedByMove(old(pods), i);
      return true;
    }
  }

  lemma RemovedByMove(pods: seq<Pod>, i: nat)
    requires Keyed(pods) && i < |pods|
    ensures var after := pods[i := pods[|pods| - 1]][..|pods| - 1];
            Keyed(after) && Elements(after) == Elements(pods) - {pods[i]}
  {
    var last := |pods| - 1;
    var after := pods[i := pods[last]][..last];
    forall q | q in Elements(pods) - {pods[i]} ensures q in Elements(after) {
      var j :| 0 <= j < |pods| && pods[j] == q;
      assert q == if j == last then after[i] else after[j];
    }
  }

  lemma KeyedSnoc(pods: seq<Pod>, p: Pod)
    requires Keyed(pods + [p])
    ensures p !in Elements(pods) && Elements(pods + [p]) == Elements(pods) + {p}
  {
    forall i | 0 <= i < |pods| ensures pods[i] != p {
      assert (pods + [p])[i] == pods[i] && (pods + [p])[|pods|] == p;
    }
  }

  /** Nothing but the loop itself can keep a pod of order from being put back on the node. */
  ghost predicate Reprievable(ctx: Context, order: seq<Pod>) {
    && Distinct(order) && Returnable(ctx.quotas, Elements(order))
    && forall p, q | p in order && q in ctx.node :: p.uid != q.uid
  }

  lemma ReprievableNext(ctx: Context, order: seq<Pod>, p: Pod, rest: seq<Pod>)
    requires Reprievable(ctx, order + ([p] + rest))
    ensures Distinct(order) && p !in Elements(order)
    ensures Returnable(ctx.quotas, Elements(order) + {p})
    ensures forall q | q in ctx.node + Elements(order) :: q.uid != p.uid
  {
    var all := order + ([p] + rest);
    assert forall k | 0 <= k < |order| :: all[k] == order[k];
    assert all[|order|] == p;
    assert p in Elements(all) && Elements(order) <= Elements(all);
  }

  lemma KeyedAdd(ctx: Context, order: seq<Pod>, p: Pod, onNode: seq<Pod>)
    requires Distinct(order) && p !in Elements(order)
    requires forall q | q in ctx.node + Elements(order) :: q.uid != p.uid
    requires Keyed(onNode) && Elements(onNode) == ctx.node + Kept(ctx, order)
    ensures p !in Kept(ctx, order) && Kept(ctx, order) <= Elements(order)
    ensures Keyed(onNode + [p])
  {
    KeptAndEvictedPartition(ctx, order);
    forall k | 0 <= k < |onNode| ensures onNode[k].uid != p.uid {
      assert onNode[k] in Elements(onNode);
    }
  }

  /** What the closures of selectVictimsOnNode capture. */
  class Trial {
    const scheduler: Scheduler
    const preemptor: Pod
    const request: Resource
    const node: NodeInfo
    const infos: ElasticQuotaInfos

    constructor (scheduler: Scheduler, preemptor: Pod, request: Resource, node: NodeInfo, infos: ElasticQuotaInfos)
      ensures this.scheduler == scheduler && this.preemptor == preemptor && this.request == request
      ensures this.node == node && this.infos == infos
    {
      this.scheduler, this.preemptor, this.request, this.node, this.infos := scheduler, preemptor, request, node, infos;
    }

    ghost predicate Valid()
      reads node, infos, infos.Repr
    {
      && infos.Valid() && request == Request(preemptor)
      && this !in infos.Repr && node !in infos.Repr && Keyed(node.pods)
    }

    method RemovePod(p: Pod) returns (ok: bool)
      requires Valid() && p in node.pods
      modifies node, infos.Repr
      ensures Valid() && infos.Repr == old(infos.Repr)
      ensures ok <==> p.uid != ""
      ensures ok ==> Elements(node.pods) == Elements(old(node.pods)) - {p}
      ensures ok ==> infos.quotas == Exclude(old(infos.quotas), p)
    {
      ok := node.RemovePod(p);
      if ok && p.namespace in infos.infos {
        var _ := infos.DeletePodIfPresent(p);
      }
    }

    method AddPod(p: Pod)
      requires Valid() && Keyed(node.pods + [p])
      modifies node, infos.Repr
      ensures Valid() && infos.Repr == old(infos.Repr)
      ensures node.pods == old(node.pods) + [p]
      ensures infos.quotas == Include(old(infos.quotas), p)
    {
      node.AddPod(p);
      if p.namespace in infos.infos {
        var _ := infos.AddPodIfNotPresent(p);
      }
    }

    method OverQuotaCheck() returns (over: bool)
      requires Valid()
      ensures over == OverQuota(infos.quotas, preemptor)
    {
      if preemptor.namespace !in infos.infos { return false; }
      var eq := infos.infos[preemptor.namespace];
      over := eq.OverUsedCheck(request, eq.max);
      if !over {
        over := infos.AggregatedMinOverUsedWithPod(request);
      }
    }

    /** The state in which the pods of back have been given back to the stripped node. */
    ghost predicate At(ctx: Context, back: set<Pod>)
      reads node, infos
    {
      && ctx.fits == scheduler.fits && ctx.preemptor == preemptor
      && Elements(node.pods) == ctx.node + back
      && Restored(ctx.quotas, back, infos.quotas) && TracksMore(ctx.quotas, infos.quotas)
    }

    method GiveBack(p: Pod, ghost ctx: Context, ghost back: set<Pod>)
      requires Valid() && At(ctx, back)
      requires p !in back && Returnable(ctx.quotas, back + {p}) && Keyed(node.pods + [p])
      modifies node, infos.Repr
      ensures Valid() && infos.Repr == old(infos.Repr)
      ensures At(ctx, back + {p}) && p in node.pods && p !in ctx.node
    {
      KeyedSnoc(node.pods, p);
      assert p !in ctx.node + back;
      IncludeRestores(ctx.quotas, back, p, infos.quotas);
      EntriesStay(infos.quotas, p);
      AddPod(p);
      assert node.pods[|node.pods| - 1] == p;
    }

    method TakeOut(p: Pod, ghost ctx: Context, ghost back: set<Pod>)
      requires Valid() && At(ctx, back + {p}) && p in node.pods && p !in ctx.node
      requires p !in back && Returnable(ctx.quotas, back + {p})
      modifies node, infos.Repr
      ensures Valid() && infos.Repr == old(infos.Repr)
      ensures At(ctx, back)
    {
      ExcludeRestores(ctx.quotas, back, p, infos.quotas);
      EntriesStay(infos.quotas, p);
      var _ := RemovePod(p);
    }

    method OverQuotaAt(ghost ctx: Context, ghost back: set<Pod>) returns (over: bool)
      requires Valid() && At(ctx, back) && Settled(ctx.quotas, Request(ctx.preemptor))
      ensures over <==> !QuotasAllow(ctx, back)
    {
      ChecksAgree(ctx, back, infos.quotas);
      over := OverQuotaCheck();
    }

    method FitsAt(ghost ctx: Context, ghost back: set<Pod>) returns (fits: bool)
      requires At(ctx, back)
      ensures fits == ctx.fits(ctx.node + back)
    {
      fits := scheduler.fits(Elements(node.pods));
    }

    /** The first eviction branch. */
    method EvictIfUnfit(p: Pod, ghost ctx: Context, ghost back: set<Pod>) returns (fits: bool, evicted: seq<Pod>)
      requires Valid() && At(ctx, back + {p}) && p in node.pods && p !in ctx.node
      requires p !in back && Returnable(ctx.quotas, back + {p})
      modifies node, infos.Repr
      ensures Valid() && infos.Repr == old(infos.Repr)
      ensures fits == ctx.fits(ctx.node + (back + {p}))
      ensures At(ctx, if fits then back + {p} else back) && (fits ==> p in node.pods)
      ensures evicted == if fits then [] else [p]
    {
      evicted := [];
      fits := FitsAt(ctx, back + {p});
      if !fits {
        TakeOut(p, ctx, back);
        evicted := evicted + [p];
      }
    }

    /** The second one, an independent if. present says whether p is still on the node. */
    method EvictIfOverQuota(p: Pod, ghost ctx: Context, ghost back: set<Pod>, ghost present: bool) returns (evicted: seq<Pod>)
      requires Valid() && At(ctx, if present then back + {p} else back) && Settled(ctx.quotas, Request(ctx.preemptor))
      requires p !in ctx.node && (present ==> p in node.pods)
      requires p !in back && Returnable(ctx.quotas, back + {p})
      requires QuotasAllow(ctx, back)
      modifies node, infos.Repr
      ensures Valid() && infos.Repr == old(infos.Repr)
      ensures At(ctx, if present && QuotasAllow(ctx, back + {p}) then back + {p} else back)
      ensures evicted == if present && !QuotasAllow(ctx, back + {p}) then [p] else []
    {
      evicted := [];
      var over := OverQuotaAt(ctx, if present then back + {p} else back);
      if over {
        TakeOut(p, ctx, back);
        evicted := evicted + [p];
      }
    }

    /** The two eviction branches are independent ifs, yet p is evicted once or not at all:
        when the filters have already sent it away, the quotas hold again. */
    method ReprievePod(p: Pod, ghost ctx: Context, ghost back: set<Pod>) returns (fits: bool, evicted: seq<Pod>)
      requires Valid() && At(ctx, back) && Settled(ctx.quotas, Request(ctx.preemptor))
      requires p !in back && Returnable(ctx.quotas, back + {p}) && Keyed(node.pods + [p])
      requires QuotasAllow(ctx, back)
      modifies node, infos.Repr
      ensures Valid() && infos.Repr == old(infos.Repr)
      ensures fits == ctx.fits(ctx.node + (back + {p}))
      ensures At(ctx, if Admissible(ctx, back + {p}) then back + {p} else back)
      ensures evicted == if Admissible(ctx, back + {p}) then [] else [p]
    {
      GiveBack(p, ctx, back);
      assert Admissible(ctx, back + {p}) <==> ctx.fits(ctx.node + (back + {p})) && QuotasAllow(ctx, back + {p});
      var unfit, over;
      fits, unfit := EvictIfUnfit(p, ctx, back);
      over := EvictIfOverQuota(p, ctx, back, fits);
      evicted := unfit + over;
    }

    // ----- the scan -----

    method IsPotentialVictim(p: Pod, beyondMin: bool) returns (b: bool)
      requires Valid()
      ensures b == Takes(preemptor, beyondMin, infos.quotas, p)
    {
      if preemptor.namespace in infos.infos {
        if p.namespace !in infos.infos { return false; }
        if beyondMin {
          return p.namespace == preemptor.namespace && p.priority < preemptor.priority;
        }
        var eq := infos.infos[p.namespace];
        var borrows := MoreThanMinCheck(Resource(eq.used.milliCPU, eq.used.memory, eq.used.scalars), eq.min);
        return p.namespace != preemptor.namespace && borrows;
      }
      return p.namespace !in infos.infos && p.priority < preemptor.priority;
    }

    /** scanned is the part of the list seen before p. */
    method RemovePotentialVictim(p: Pod, ghost beyondMin: bool, ghost quotas: Quotas, ghost onNode: seq<Pod>, ghost scanned: seq<Pod>)
      returns (ok: bool)
      requires Valid() && Scanned(beyondMin, quotas, onNode, scanned) && p in onNode && p !in scanned
      requires Takes(preemptor, beyondMin, infos.quotas, p)
      modifies node, infos.Repr
      ensures Valid() && infos.Repr == old(infos.Repr)
      ensures ok <==> p.uid != ""
      ensures ok ==> Scanned(beyondMin, quotas, onNode, scanned + [p])
    {
      ghost var front := Taken(preemptor, beyondMin, quotas, scanned);
      TakenSnoc(preemptor, beyondMin, quotas, scanned, p);
      NotTakenBefore(preemptor, beyondMin, quotas, scanned, p);
      StrippedSnoc(quotas, front, p);
      ElementsSnoc(front, p);
      assert p in Elements(onNode) - Elements(front);
      ok := RemovePod(p);
    }

    /** The state once the pods of scanned have been looked at. */
    ghost predicate Scanned(beyondMin: bool, quotas: Quotas, onNode: seq<Pod>, scanned: seq<Pod>)
      reads node, infos
    {
      var taken := Taken(preemptor, beyondMin, quotas, scanned);
      && infos.quotas == Stripped(quotas, taken)
      && Elements(node.pods) == Elements(onNode) - Elements(taken)
      && forall p | p in taken :: p.uid != ""
    }

    /** Looks at the next pod of the scan. */
    method ScanNext(p: Pod, beyondMin: bool, ghost quotas: Quotas, ghost onNode: seq<Pod>, ghost scanned: seq<Pod>)
      returns (taken: seq<Pod>, ok: bool)
      requires Valid() && Scanned(beyondMin, quotas, onNode, scanned) && p in onNode && p !in scanned
      modifies node, infos.Repr
      ensures Valid() && infos.Repr == old(infos.Repr)
      ensures Taken(preemptor, beyondMin, quotas, scanned + [p]) == Taken(preemptor, beyondMin, quotas, scanned) + taken
      ensures ok ==> Scanned(beyondMin, quotas, onNode, scanned + [p])
      ensures !ok ==> p.uid == "" && taken == [p]
    {
      TakenSnoc(preemptor, beyondMin, quotas, scanned, p);
      taken, ok := [], true;
      var take := IsPotentialVictim(p, beyondMin);
      if take {
        ok := RemovePotentialVictim(p, beyondMin, quotas, onNode, scanned);
        taken := [p];
      }
    }

    /** Ranges over the list as it stood before the first removal. */
    method TakePotentialVictims(beyondMin: bool) returns (taken: seq<Pod>, ok: bool)
      requires Valid()
      modifies node, infos.Repr
      ensures Valid() && infos.Repr == old(infos.Repr)
      ensures ok ==> Scanned(beyondMin, old(infos.quotas), old(node.pods), old(node.pods))
      ensures ok ==> taken == Taken(preemptor, beyondMin, old(infos.quotas), old(node.pods))
      ensures !ok ==> exists p :: p in Taken(preemptor, beyondMin, old(infos.quotas), old(node.pods)) && p.uid == ""
    {
      var scan := node.pods;
      ghost var quotas := infos.quotas;
      taken, ok := [], true;
      assert scan[..|scan|] == scan;
      for i := 0 to |scan|
        invariant Valid() && infos.Repr == old(infos.Repr)
        invariant Scanned(beyondMin, quotas, scan, scan[..i])
        invariant taken == Taken(preemptor, beyondMin, quotas, scan[..i])
      {
        NextOfScan(scan, i);
        var more;
        more, ok := ScanNext(scan[i], beyondMin, quotas, scan, scan[..i]);
        if !ok {
          TakenPrefix(preemptor, beyondMin, quotas, scan, i + 1);
          return;
        }
        taken := taken + more;
      }
    }

    // ----- the loop that gives pods back -----

    /** The state once the pods of order have been tried. */
    ghost predicate Tried(ctx: Context, order: seq<Pod>)
      reads node, infos
    {
      At(ctx, Kept(ctx, order)) && QuotasAllow(ctx, Kept(ctx, order))
    }

    method ReprieveNext(p: Pod, ghost ctx: Context, ghost order: seq<Pod>, ghost rest: seq<Pod>) returns (fits: bool, evicted: seq<Pod>)
      requires Valid() && Settled(ctx.quotas, Request(ctx.preemptor))
      requires Tried(ctx, order) && Reprievable(ctx, order + ([p] + rest))
      modifies node, infos.Repr
      ensures Valid() && infos.Repr == old(infos.Repr)
      ensures Tried(ctx, order + [p])
      ensures Evicted(ctx, order + [p]) == Evicted(ctx, order) + evicted
      ensures Rejected(ctx, order + [p]) == Rejected(ctx, order) + if fits then 0 else 1
    {
      ReprievableNext(ctx, order, p, rest);
      KeyedAdd(ctx, order, p, node.pods);
      LoopSnoc(ctx, order, p);
      fits, evicted := ReprievePod(p, ctx, Kept(ctx, order));
    }

    /** Goes on with the list where done left off; before holds the victims so far. */
    method ReprievePods(list: seq<Pod>, before: seq<Pod>, ghost ctx: Context, ghost done: seq<Pod>)
      returns (victims: seq<Pod>, rejected: nat)
      requires Valid() && Settled(ctx.quotas, Request(ctx.preemptor)) && Reprievable(ctx, done + list)
      requires Tried(ctx, done) && before == Evicted(ctx, done)
      modifies node, infos.Repr
      ensures Valid() && infos.Repr == old(infos.Repr)
      ensures Tried(ctx, done + list)
      ensures victims == Evicted(ctx, done + list)
      ensures rejected == Rejected(ctx, done + list) - Rejected(ctx, done)
    {
      victims, rejected := before, 0;
      ghost var order := done;
      assert list[..|list|] == list;
      for i := 0 to |list|
        invariant order == done + list[..i]
        invariant Valid() && infos.Repr == old(infos.Repr)
        invariant Tried(ctx, order)
        invariant victims == Evicted(ctx, order) && rejected == Rejected(ctx, order) - Rejected(ctx, done)
      {
        SplitAt(done, list, i);
        var fits, out := ReprieveNext(list[i], ctx, order, list[i + 1..]);
        victims := victims + out;
        if !fits {
          rejected := rejected + 1;
        }
        order := order + [list[i]];
      }
    }
  }

  lemma NextOfScan(scan: seq<Pod>, i: nat)
    requires i < |scan| && Keyed(scan)
    ensures scan[..i + 1] == scan[..i] + [scan[i]] && scan[i] !in scan[..i]
  {
  }

  lemma NotTakenBefore(preemptor: Pod, beyondMin: bool, quotas: Quotas, scanned: seq<Pod>, p: Pod)
    requires p !in scanned
    ensures p !in Taken(preemptor, beyondMin, quotas, scanned)
  {
    TakenFromScan(preemptor, beyondMin, quotas, scanned);
    assert p !in multiset(scanned);
  }

  lemma SplitAt(done: seq<Pod>, list: seq<Pod>, i: nat)
    requires i < |list|
    ensures done + list == (done + list[..i]) + ([list[i]] + list[i + 1..])
    ensures done + list[..i + 1] == (done + list[..i]) + [list[i]]
  {
  }

  lemma {:induction false} TakenPrefix(preemptor: Pod, beyondMin: bool, quotas: Quotas, scan: seq<Pod>, i: nat)
    requires i <= |scan|
    ensures forall p | p in Taken(preemptor, beyondMin, quotas, scan[..i]) :: p in Taken(preemptor, beyondMin, quotas, scan)
    decreases |scan|
  {
    if i == |scan| {
      assert scan[..i] == scan;
    } else {
      var n := |scan| - 1;
      TakenPrefix(preemptor, beyondMin, quotas, scan[..n], i);
      assert scan[..n][..i] == scan[..i];
      assert scan == scan[..n] + [scan[n]];
      TakenSnoc(preemptor, beyondMin, quotas, scan[..n], scan[n]);
    }
  }
}
