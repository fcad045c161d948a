// The second half of victim selection: with every potential victim taken out,
// give pods back one at a time as long as the preemptor still fits and the
// quotas still hold. Here the loop is a function on sets of pods; it is compared
// with every other way of giving pods back.
module Reprieve {
  import opened Sums
  import opened Resources
  import opened Pods
  import opened ElasticQuota

  /** fits is the verdict of the filter plugins on the set of pods that stay on the node;
      node and quotas are the state with every potential victim taken out. */
  datatype Context = Context(fits: set<Pod> -> bool, node: set<Pod>, quotas: Quotas, preemptor: Pod)

  // ----- what it means to give a set of pods back -----

  ghost function RequestOf(d: Dimension): Pod -> int {
    p => Request(p).At(d)
  }

  ghost function InNamespace(s: set<Pod>, ns: string): set<Pod> {
    set p | p in s && p.namespace == ns
  }

  ghost function WithQuota(s: set<Pod>, quotas: Quotas): set<Pod> {
    set p | p in s && p.namespace in quotas
  }

  ghost function UsedWith(quotas: Quotas, back: set<Pod>, ns: string, d: Dimension): int
    requires ns in quotas
  {
    quotas[ns].used.At(d) + Sum(InNamespace(back, ns), RequestOf(d))
  }

  ghost function TotalUsedWith(quotas: Quotas, back: set<Pod>, d: Dimension): int {
    TotalUsed(quotas, d) + Sum(WithQuota(back, quotas), RequestOf(d))
  }

  /** With the pods of back returned, the preemptor's request keeps its quota within Max
      and all quotas together within the sum of the Mins. */
  ghost predicate QuotasAllow(ctx: Context, back: set<Pod>) {
    var ns, r := ctx.preemptor.namespace, Request(ctx.preemptor);
    ns in ctx.quotas ==>
      && (forall d: Dimension | d.Scalar? ==> d.name in r.scalars ::
            UsedWith(ctx.quotas, back, ns, d) + r.At(d) <= ctx.quotas[ns].max.At(d))
      && (forall d :: TotalUsedWith(ctx.quotas, back, d) + r.At(d) <= TotalMin(ctx.quotas, d))
  }

  ghost predicate Admissible(ctx: Context, back: set<Pod>) {
    ctx.fits(ctx.node + back) && QuotasAllow(ctx, back)
  }

  // ----- the greedy loop -----

  ghost function Kept(ctx: Context, order: seq<Pod>): set<Pod> {
    if order == [] then {}
    else
      var front := Kept(ctx, order[..|order| - 1]);
      if Admissible(ctx, front + {order[|order| - 1]}) then front + {order[|order| - 1]} else front
  }

  ghost function Evicted(ctx: Context, order: seq<Pod>): seq<Pod> {
    if order == [] then []
    else
      var front, p := order[..|order| - 1], order[|order| - 1];
      if Admissible(ctx, Kept(ctx, front) + {p}) then Evicted(ctx, front) else Evicted(ctx, front) + [p]
  }

  /** How many pods of order the filters refused to take back; evictions for the quotas' sake are not counted. */
  ghost function Rejected(ctx: Context, order: seq<Pod>): nat {
    if order == [] then 0
    else
      var front, p := order[..|order| - 1], order[|order| - 1];
      Rejected(ctx, front) + if ctx.fits(ctx.node + (Kept(ctx, front) + {p})) then 0 else 1
  }

  lemma LoopSnoc(ctx: Context, order: seq<Pod>, p: Pod)
    ensures var ok := Admissible(ctx, Kept(ctx, order) + {p});
            && Kept(ctx, order + [p]) == (if ok then Kept(ctx, order) + {p} else Kept(ctx, order))
            && Evicted(ctx, order + [p]) == (if ok then Evicted(ctx, order) else Evicted(ctx, order) + [p])
            && Rejected(ctx, order + [p]) ==
               Rejected(ctx, order) + (if ctx.fits(ctx.node + (Kept(ctx, order) + {p})) then 0 else 1)
  {
    assert (order + [p])[..|order|] == order;
  }

  // ----- soundness -----

  ghost predicate Distinct(s: seq<Pod>) {
    forall i, j | 0 <= i < j < |s| :: s[i] != s[j]
  }

  function Elements(s: seq<Pod>): set<Pod> {
    set p | p in s
  }

  lemma ElementsSnoc(pods: seq<Pod>, p: Pod)
    ensures Elements(pods + [p]) == Elements(pods) + {p}
  {
  }

  lemma DistinctSnoc(front: seq<Pod>, p: Pod)
    ensures Distinct(front + [p]) <==> Distinct(front) && p !in Elements(front)
  {
    var all := front + [p];
    assert all[|front|] == p && forall k | 0 <= k < |front| :: all[k] == front[k];
  }

  /** Every pod is either kept or evicted, and evicted once. */
  lemma {:induction false} KeptAndEvictedPartition(ctx: Context, order: seq<Pod>)
    requires Distinct(order)
    ensures Kept(ctx, order) + Elements(Evicted(ctx, order)) == Elements(order)
    ensures Kept(ctx, order) !! Elements(Evicted(ctx, order))
    ensures Distinct(Evicted(ctx, order))
    decreases |order|
  {
    if order != [] {
      var front, p := order[..|order| - 1], order[|order| - 1];
      assert order == front + [p];
      DistinctSnoc(front, p);
      KeptAndEvictedPartition(ctx, front);
      ElementsSnoc(front, p);
      ElementsSnoc(Evicted(ctx, front), p);
      DistinctSnoc(Evicted(ctx, front), p);
    }
  }

  /** If the node is worth looking at all, what is left after the loop passes the filters and both quota checks. */
  lemma {:induction false} KeptIsAdmissible(ctx: Context, order: seq<Pod>)
    requires Admissible(ctx, {})
    ensures Admissible(ctx, Kept(ctx, order))
    decreases |order|
  {
    if order != [] {
      KeptIsAdmissible(ctx, order[..|order| - 1]);
    }
  }

  lemma {:induction false} RejectedAreEvicted(ctx: Context, order: seq<Pod>)
    ensures Rejected(ctx, order) <= |Evicted(ctx, order)|
    decreases |order|
  {
    if order != [] {
      RejectedAreEvicted(ctx, order[..|order| - 1]);
    }
  }

  /** Whenever the loop reaches a pod that the filters would take back, the quotas agree. */
  ghost predicate NoneForQuotas(ctx: Context, order: seq<Pod>) {
    forall i: nat | i < |order| :: NotForQuotas(ctx, Kept(ctx, order[..i]) + {order[i]})
  }

  ghost predicate NotForQuotas(ctx: Context, back: set<Pod>) {
    ctx.fits(ctx.node + back) ==> QuotasAllow(ctx, back)
  }

  lemma NoneForQuotasSnoc(ctx: Context, front: seq<Pod>, p: Pod)
    ensures NoneForQuotas(ctx, front + [p]) <==> NoneForQuotas(ctx, front) && NotForQuotas(ctx, Kept(ctx, front) + {p})
  {
    var all := front + [p];
    assert all[..|front|] == front && all[|front|] == p;
    assert forall i: nat | i < |front| :: all[..i] == front[..i] && all[i] == front[i];
  }

  /** The count of refusals is the count of evictions unless a pod is evicted for the quotas' sake. */
  lemma {:induction false} RejectedIsExactIff(ctx: Context, order: seq<Pod>)
    ensures Rejected(ctx, order) == |Evicted(ctx, order)| <==> NoneForQuotas(ctx, order)
    decreases |order|
  {
    if order != [] {
      var front, p := order[..|order| - 1], order[|order| - 1];
      assert order == front + [p];
      RejectedIsExactIff(ctx, front);
      RejectedAreEvicted(ctx, front);
      NoneForQuotasSnoc(ctx, front, p);
      LoopSnoc(ctx, front, p);
    }
  }

  lemma {:induction false} EvictedPrefix(ctx: Context, first: seq<Pod>, second: seq<Pod>)
    ensures Evicted(ctx, first) <= Evicted(ctx, first + second)
    decreases |second|
  {
    if second == [] {
      assert first + second == first;
    } else {
      var front, p := second[..|second| - 1], second[|second| - 1];
      assert second == front + [p];
      EvictedPrefix(ctx, first, front);
      SnocConcat(first, front, p);
      LoopSnoc(ctx, first + front, p);
    }
  }

  /** Trying more pods later changes nothing about who of the first ones is evicted. */
  lemma EvictedAmong(ctx: Context, first: seq<Pod>, second: seq<Pod>)
    requires Distinct(first + second)
    ensures Elements(Evicted(ctx, first + second)) * Elements(first) == Elements(Evicted(ctx, first))
    ensures |Elements(Evicted(ctx, first))| == |Evicted(ctx, first)|
  {
    var all := first + second;
    assert Distinct(first) by {
      assert forall k | 0 <= k < |first| :: all[k] == first[k];
    }
    KeptAndEvictedPartition(ctx, all);
    KeptAndEvictedPartition(ctx, first);
    KeptAmong(ctx, first, second);
    assert Elements(first) <= Elements(all);
    DistinctCount(Evicted(ctx, first));
  }

  lemma KeptAmong(ctx: Context, first: seq<Pod>, second: seq<Pod>)
    requires Distinct(first + second)
    ensures Kept(ctx, first + second) * Elements(first) == Kept(ctx, first)
  {
    var all := first + second;
    assert all[..|first|] == first;
    if second == [] {
      assert all == first;
      KeptAndEvictedPartition(ctx, first);
    } else {
      DecisionsStand(ctx, all, |first|);
    }
  }

  lemma {:induction false} DistinctCount(s: seq<Pod>)
    requires Distinct(s)
    ensures |Elements(s)| == |s|
    decreases |s|
  {
    if s == [] {
      assert Elements(s) == {};
    } else {
      var front, p := s[..|s| - 1], s[|s| - 1];
      assert s == front + [p];
      DistinctSnoc(front, p);
      DistinctCount(front);
      ElementsSnoc(front, p);
    }
  }

  // ----- optimality -----

  /** Taking pods off a node never makes the preemptor fit less. */
  ghost predicate DownwardClosed(fits: set<Pod> -> bool) {
    forall a, b | a <= b && fits(b) :: fits(a)
  }

  lemma FewerPodsStayAdmissible(ctx: Context, a: set<Pod>, b: set<Pod>)
    requires DownwardClosed(ctx.fits)
    requires a <= b && forall p | p in b :: WellFormed(p)
    requires Admissible(ctx, b)
    ensures Admissible(ctx, a)
  {
    assert ctx.node + a <= ctx.node + b;
    var ns := ctx.preemptor.namespace;
    if ns in ctx.quotas {
      forall d
        ensures UsedWith(ctx.quotas, a, ns, d) <= UsedWith(ctx.quotas, b, ns, d)
        ensures TotalUsedWith(ctx.quotas, a, d) <= TotalUsedWith(ctx.quotas, b, d)
      {
        forall p | p in b ensures RequestOf(d)(p) >= 0 {
          RequestIsLeastCover(p, d, 0);
        }
        SumSubset(InNamespace(a, ns), InNamespace(b, ns), RequestOf(d));
        SumSubset(WithQuota(a, ctx.quotas), WithQuota(b, ctx.quotas), RequestOf(d));
      }
    }
  }

  /** At the first pod on which the two sets differ, a has it and b does not. */
  ghost predicate LexGreater(order: seq<Pod>, a: set<Pod>, b: set<Pod>) {
    exists i | 0 <= i < |order| ::
      order[i] in a && order[i] !in b && forall j | 0 <= j < i :: order[j] in a <==> order[j] in b
  }

  /** The loop never revisits a decision. */
  lemma {:induction false} DecisionsStand(ctx: Context, order: seq<Pod>, i: nat)
    requires Distinct(order) && i < |order|
    ensures Kept(ctx, order[..i]) == Kept(ctx, order) * Elements(order[..i])
    ensures order[i] in Kept(ctx, order) <==> Admissible(ctx, Kept(ctx, order[..i]) + {order[i]})
    decreases |order|
  {
    var n := |order| - 1;
    var front := order[..n];
    assert order == front + [order[n]] && order[n] !in Elements(front);
    KeptAndEvictedPartition(ctx, front);
    if i < n {
      DecisionsStand(ctx, front, i);
      assert front[..i] == order[..i];
    }
  }

  lemma FirstDifference(order: seq<Pod>, a: set<Pod>, b: set<Pod>) returns (i: nat)
    requires a <= Elements(order) && b <= Elements(order) && a != b
    ensures i < |order| && !(order[i] in a <==> order[i] in b)
    ensures forall j | 0 <= j < i :: order[j] in a <==> order[j] in b
  {
    i := 0;
    while i < |order| && (order[i] in a <==> order[i] in b)
      invariant i <= |order|
      invariant forall j | 0 <= j < i :: order[j] in a <==> order[j] in b
    {
      i := i + 1;
    }
    if i == |order| {
      assert forall p | p in Elements(order) :: p in a <==> p in b;
    }
  }

  lemma AgreeBelow(order: seq<Pod>, i: nat, a: set<Pod>, b: set<Pod>)
    requires i <= |order| && forall j | 0 <= j < i :: order[j] in a <==> order[j] in b
    ensures a * Elements(order[..i]) <= b
  {
    forall p | p in a * Elements(order[..i]) ensures p in b {
      var j :| 0 <= j < i && order[..i][j] == p;
      assert order[j] == p;
    }
  }

  /** The set that the loop gives back is, in the order of importance, the greatest
      admissible one: every other admissible choice first goes wrong by evicting a
      pod that the loop keeps. */
  lemma GreedyIsLexGreatest(ctx: Context, order: seq<Pod>, other: set<Pod>)
    requires DownwardClosed(ctx.fits)
    requires Distinct(order) && forall p | p in order :: WellFormed(p)
    requires other <= Elements(order) && Admissible(ctx, other)
    ensures other == Kept(ctx, order) || LexGreater(order, Kept(ctx, order), other)
  {
    var kept := Kept(ctx, order);
    KeptAndEvictedPartition(ctx, order);
    if other != kept {
      var i := FirstDifference(order, kept, other);
      DecisionsStand(ctx, order, i);
      if order[i] in other {
        AgreeBelow(order, i, kept, other);
        FewerPodsStayAdmissible(ctx, Kept(ctx, order[..i]) + {order[i]}, other);
      }
    }
  }

  /** Hence no single evicted pod could have been spared. */
  lemma NoEvictionIsSpare(ctx: Context, order: seq<Pod>, v: Pod)
    requires DownwardClosed(ctx.fits)
    requires Distinct(order) && forall p | p in order :: WellFormed(p)
    requires v in Evicted(ctx, order)
    ensures !Admissible(ctx, Kept(ctx, order) + {v})
  {
    KeptAndEvictedPartition(ctx, order);
    assert v in Elements(Evicted(ctx, order));
    if Admissible(ctx, Kept(ctx, order) + {v}) {
      GreedyIsLexGreatest(ctx, order, Kept(ctx, order) + {v});
    }
  }
}
