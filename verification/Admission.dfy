// Admission against the quotas: PreFilter decides on a snapshot, Reserve commits
// to the live ledger, and in between pods may leave.
module Admission {
  import opened Sums
  import opened Resources
  import opened Pods
  import opened Wrappers
  import opened ElasticQuota
  import opened Ledger

  /** The success statuses of PreFilter are Skipped and Admitted. */
  datatype Verdict = Skipped | Admitted | MoreThanMax | TotalMoreThanMin

  ghost function PreFilterVerdict(quotas: Quotas, p: Pod): Verdict {
    if p.namespace !in quotas then Skipped
    else if OverUsed(quotas[p.namespace].used, Request(p), quotas[p.namespace].max) then MoreThanMax
    else if AggregateOver(quotas, Request(p)) then TotalMoreThanMin
    else Admitted
  }

  ghost predicate Succeeds(quotas: Quotas, p: Pod) {
    PreFilterVerdict(quotas, p).Skipped? || PreFilterVerdict(quotas, p).Admitted?
  }

  /** No namespace is above its Max, and all namespaces together are within the sum of the Mins. */
  ghost predicate Safe(quotas: Quotas) {
    && (forall ns | ns in quotas :: AtMost(quotas[ns].used, quotas[ns].max))
    && forall d :: TotalUsed(quotas, d) <= TotalMin(quotas, d)
  }

  lemma TotalsAfterInclude(quotas: Quotas, p: Pod, d: Dimension)
    requires p.namespace in quotas && p.uid != "" && p.uid !in quotas[p.namespace].pods
    ensures TotalUsed(Include(quotas, p), d) == TotalUsed(quotas, d) + Request(p).At(d)
    ensures TotalMin(Include(quotas, p), d) == TotalMin(quotas, d)
  {
    assert Include(quotas, p).Keys == quotas.Keys;
    SumChangeAt(quotas.Keys, UsedAt(quotas, d), UsedAt(Include(quotas, p), d), p.namespace);
    SumCongruence(quotas.Keys, MinAt(quotas, d), MinAt(Include(quotas, p), d));
  }

  lemma TotalsAfterExclude(quotas: Quotas, p: Pod, d: Dimension)
    requires WellFormed(p)
    ensures TotalUsed(Exclude(quotas, p), d) <= TotalUsed(quotas, d)
    ensures TotalMin(Exclude(quotas, p), d) == TotalMin(quotas, d)
  {
    assert Exclude(quotas, p).Keys == quotas.Keys;
    RequestIsLeastCover(p, d, 0);
    SumMonotone(quotas.Keys, UsedAt(Exclude(quotas, p), d), UsedAt(quotas, d));
    SumCongruence(quotas.Keys, MinAt(quotas, d), MinAt(Exclude(quotas, p), d));
  }

  lemma WithinMaxIff(used: Resource, request: Resource, max: Resource)
    requires AtMost(used, max)
    ensures !OverUsed(used, request, max) <==> AtMost(Plus(used, request), max)
  {
    if AtMost(Plus(used, request), max) {
      assert forall d :: Plus(used, request).At(d) <= max.At(d);
    } else {
      var d :| Plus(used, request).At(d) > max.At(d);
      assert used.At(d) + request.At(d) > max.At(d) && used.At(d) <= max.At(d);
    }
  }

  lemma WithinTotalsIff(quotas: Quotas, p: Pod)
    requires p.namespace in quotas && p.uid != "" && p.uid !in quotas[p.namespace].pods
    requires forall d :: TotalUsed(quotas, d) <= TotalMin(quotas, d)
    ensures !AggregateOver(quotas, Request(p)) <==>
            forall d :: TotalUsed(Include(quotas, p), d) <= TotalMin(Include(quotas, p), d)
  {
    forall d
      ensures TotalUsed(Include(quotas, p), d) == TotalUsed(quotas, d) + Request(p).At(d)
      ensures TotalMin(Include(quotas, p), d) == TotalMin(quotas, d)
      ensures !Tracked(quotas, Request(p), d) ==> Request(p).At(d) == 0
    {
      TotalsAfterInclude(quotas, p, d);
    }
  }

  /** PreFilter neither over- nor under-admits: from a safe ledger it lets a new pod
      through exactly when committing the pod leaves the ledger safe. */
  lemma AdmitsExactlyTheSafePods(quotas: Quotas, p: Pod)
    requires Safe(quotas) && p.namespace in quotas
    requires p.uid != "" && p.uid !in quotas[p.namespace].pods
    ensures Succeeds(quotas, p) <==> Safe(Include(quotas, p))
  {
    var ns, after := p.namespace, Include(quotas, p);
    WithinMaxIff(quotas[ns].used, Request(p), quotas[ns].max);
    WithinTotalsIff(quotas, p);
    assert forall n | n in quotas && n != ns :: after[n] == quotas[n];
    assert after[ns].used == Plus(quotas[ns].used, Request(p)) && after[ns].max == quotas[ns].max;
  }

  /** What PreFilter says on any ledger, also one that is beyond its limits already: a new pod of a quota passes exactly
      if, once committed, its namespace is within Max in CPU, memory and the scalars that the pod mentions, and all
      namespaces together are within the Mins in every dimension that some ledger then has an entry for. */
  lemma VerdictOnAnyLedger(quotas: Quotas, p: Pod)
    requires p.namespace in quotas && p.uid != "" && p.uid !in quotas[p.namespace].pods
    ensures var after := Include(quotas, p);
            var withinMax := forall d: Dimension | d.Scalar? ==> d.name in Request(p).scalars ::
              after[p.namespace].used.At(d) <= after[p.namespace].max.At(d);
            var withinMins := forall d: Dimension | d.Scalar? ==> exists ns :: ns in after && d.name in after[ns].used.scalars ::
              TotalUsed(after, d) <= TotalMin(after, d);
            PreFilterVerdict(quotas, p) == if !withinMax then MoreThanMax else if !withinMins then TotalMoreThanMin else Admitted
  {
    var ns, after, r := p.namespace, Include(quotas, p), Request(p);
    assert after[ns].used == Plus(quotas[ns].used, r) && after[ns].max == quotas[ns].max;
    forall d: Dimension
      ensures TotalUsed(after, d) == TotalUsed(quotas, d) + r.At(d) && TotalMin(after, d) == TotalMin(quotas, d)
      ensures Tracked(quotas, r, d) <==> (d.Scalar? ==> exists n :: n in after && d.name in after[n].used.scalars)
    {
      TotalsAfterInclude(quotas, p, d);
      TrackedAfterInclude(quotas, p, d);
    }
  }

  lemma TrackedAfterInclude(quotas: Quotas, p: Pod, d: Dimension)
    requires p.namespace in quotas && p.uid != "" && p.uid !in quotas[p.namespace].pods
    ensures Tracked(quotas, Request(p), d) <==>
            (d.Scalar? ==> exists ns :: ns in Include(quotas, p) && d.name in Include(quotas, p)[ns].used.scalars)
  {
    var after := Include(quotas, p);
    if d.Scalar? {
      assert after[p.namespace].used.scalars.Keys == quotas[p.namespace].used.scalars.Keys + Request(p).scalars.Keys;
      if d.name in Request(p).scalars {
        assert p.namespace in after && d.name in after[p.namespace].used.scalars;
      }
      if ns :| ns in quotas && d.name in quotas[ns].used.scalars {
        assert ns in after && d.name in after[ns].used.scalars;
      }
      if ns :| ns in after && d.name in after[ns].used.scalars {
        assert ns in quotas;
      }
    }
  }

  /** Max limits a resource that it does not mention to nothing: a pod that asks for such a scalar is
      turned away exactly when it would use some of it, or goes beyond Max elsewhere. */
  lemma MissingFromMax(quotas: Quotas, p: Pod, n: string)
    requires p.namespace in quotas && n in Request(p).scalars && n !in quotas[p.namespace].max.scalars
    ensures var q, r := quotas[p.namespace], Request(p);
            PreFilterVerdict(quotas, p).MoreThanMax? <==>
            || q.used.At(Scalar(n)) + r.At(Scalar(n)) > 0
            || exists d: Dimension :: d != Scalar(n) && (d.Scalar? ==> d.name in r.scalars) && q.used.At(d) + r.At(d) > q.max.At(d)
  {
    var q, r := quotas[p.namespace], Request(p);
    assert q.max.At(Scalar(n)) == 0;
    if q.used.At(Scalar(n)) + r.At(Scalar(n)) > 0 {
      assert OverUsed(q.used, r, q.max);
    }
  }

  // ----- runs -----

  /** cleared is the pod whose scheduling cycle has passed PreFilter and not yet reached Reserve. */
  datatype State = State(quotas: Quotas, cleared: Option<Pod>)

  datatype Action =
    | Check(pod: Pod)     // PreFilter
    | Commit(pod: Pod)    // Reserve
    | Depart(event: Event)
    | Confirm(pod: Pod)   // the informer reports a pod that the ledger already lists

  ghost predicate Enabled(s: State, a: Action) {
    match a
    case Check(p) => WellFormed(p)
    case Commit(p) => s.cleared == Some(p)
    case Depart(e) => (e.PodDeleted? || e.PodUpdated? || e.Unreserved?) && WellFormed(e.pod)
    case Confirm(p) => p.namespace in s.quotas ==> p.uid in s.quotas[p.namespace].pods
  }

  ghost function Next(s: State, a: Action): State {
    match a
    case Check(p) => s.(cleared := if Succeeds(s.quotas, p) then Some(p) else None)
    case Commit(p) => State(Step(s.quotas, Reserved(p)), None)
    case Depart(e) => s.(quotas := Step(s.quotas, e))
    case Confirm(p) => s.(quotas := Step(s.quotas, PodAdded(p, None)))
  }

  ghost predicate ValidRun(s: State, actions: seq<Action>)
    decreases |actions|
  {
    actions == [] || (Enabled(s, actions[0]) && ValidRun(Next(s, actions[0]), actions[1..]))
  }

  ghost function FinalState(s: State, actions: seq<Action>): State
    decreases |actions|
  {
    if actions == [] then s else FinalState(Next(s, actions[0]), actions[1..])
  }

  ghost predicate Invariant(s: State) {
    Safe(s.quotas) && (s.cleared.Some? ==> Succeeds(s.quotas, s.cleared.value))
  }

  lemma DepartureKeepsSafe(quotas: Quotas, p: Pod)
    requires Safe(quotas) && WellFormed(p)
    ensures Safe(Exclude(quotas, p))
  {
    forall d ensures TotalUsed(Exclude(quotas, p), d) <= TotalMin(Exclude(quotas, p), d) && Request(p).At(d) >= 0 {
      TotalsAfterExclude(quotas, p, d);
      RequestIsLeastCover(p, d, 0);
    }
  }

  /** A verdict reached on the snapshot is still good on a ledger that has only lost pods since. */
  lemma DepartureKeepsVerdict(quotas: Quotas, p: Pod, cleared: Pod)
    requires Safe(quotas) && WellFormed(p) && Succeeds(quotas, cleared)
    ensures Succeeds(Exclude(quotas, p), cleared)
  {
    if cleared.namespace in quotas {
      var after, r := Exclude(quotas, p), Request(cleared);
      var q, q' := quotas[cleared.namespace], after[cleared.namespace];
      forall d: Dimension | d.Scalar? ==> d.name in r.scalars
        ensures q'.used.At(d) + r.At(d) <= q'.max.At(d)
      {
        RequestIsLeastCover(p, d, 0);
      }
      forall d: Dimension | Tracked(after, r, d)
        ensures TotalUsed(after, d) + r.At(d) <= TotalMin(after, d)
      {
        TotalsAfterExclude(quotas, p, d);
        if d.Scalar? && d.name !in r.scalars {
          assert r.At(d) == 0;
        } else {
          assert Tracked(quotas, r, d);
        }
      }
    }
  }

  lemma NextKeepsInvariant(s: State, a: Action)
    requires Invariant(s) && Enabled(s, a)
    ensures Invariant(Next(s, a))
  {
    match a
    case Check(p) =>
    case Commit(p) =>
      if p.namespace in s.quotas && p.uid != "" && p.uid !in s.quotas[p.namespace].pods {
        AdmitsExactlyTheSafePods(s.quotas, p);
      } else if p.namespace in s.quotas {
        assert Include(s.quotas, p) == s.quotas;
      }
    case Depart(e) =>
      DepartureKeepsSafe(s.quotas, e.pod);
      if s.cleared.Some? {
        DepartureKeepsVerdict(s.quotas, e.pod, s.cleared.value);
      }
    case Confirm(p) =>
      if p.namespace in s.quotas {
        assert Include(s.quotas, p) == s.quotas;
      }
  }

  /** However checks, commits, departures and informer echoes interleave, the quotas hold. */
  lemma {:induction false} RunKeepsQuotas(s: State, actions: seq<Action>)
    requires Invariant(s) && ValidRun(s, actions)
    ensures Invariant(FinalState(s, actions))
    decreases |actions|
  {
    if actions != [] {
      NextKeepsInvariant(s, actions[0]);
      RunKeepsQuotas(Next(s, actions[0]), actions[1..]);
    }
  }
}
