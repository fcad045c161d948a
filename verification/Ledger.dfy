// Whole runs of the quota ledger: every informer event and every Reserve and
// Unreserve is one step of a state machine over Quotas.
module Ledger {
  import opened Sums
  import opened Resources
  import opened Pods
  import opened Wrappers
  import opened ElasticQuota

  datatype QuotaSpec = QuotaSpec(min: Resource, max: Resource)

  /** listed is what the ElasticQuota lister answers for the namespace of the pod; None is a lister error. */
  datatype Event =
    | QuotaAdded(ns: string, spec: QuotaSpec)
    | QuotaUpdated(ns: string, spec: QuotaSpec)
    | QuotaDeleted(ns: string)
    | PodAdded(pod: Pod, listed: Option<seq<QuotaSpec>>)
    | PodUpdated(oldPhase: PodPhase, newPhase: PodPhase, pod: Pod)
    | PodDeleted(pod: Pod)
    | Reserved(pod: Pod)
    | Unreserved(pod: Pod)

  function NewQuota(spec: QuotaSpec): Quota {
    Quota({}, spec.min, spec.max, ZERO)
  }

  function Include(quotas: Quotas, p: Pod): Quotas {
    if p.namespace in quotas then quotas[p.namespace := WithPod(quotas[p.namespace], p)] else quotas
  }

  function Exclude(quotas: Quotas, p: Pod): Quotas {
    if p.namespace in quotas then quotas[p.namespace := WithoutPod(quotas[p.namespace], p)] else quotas
  }

  /** An update means that the pod has left when it moves from a live phase to a final one. */
  predicate Leaves(oldPhase: PodPhase, newPhase: PodPhase) {
    !oldPhase.Succeeded? && !oldPhase.Failed? && !newPhase.Running? && !newPhase.Pending?
  }

  function Step(quotas: Quotas, e: Event): Quotas {
    match e
    case QuotaAdded(ns, spec) => if ns in quotas then quotas else quotas[ns := NewQuota(spec)]
    case QuotaUpdated(ns, spec) =>
      if ns in quotas then quotas[ns := quotas[ns].(min := spec.min, max := spec.max)] else quotas[ns := NewQuota(spec)]
    case QuotaDeleted(ns) => quotas - {ns}
    case PodAdded(p, listed) =>
      if p.namespace !in quotas && listed.Some? && listed.value != [] then
        Include(quotas[p.namespace := NewQuota(listed.value[0])], p)
      else Include(quotas, p)
    case PodUpdated(oldPhase, newPhase, p) => if Leaves(oldPhase, newPhase) then Exclude(quotas, p) else quotas
    case PodDeleted(p) => Exclude(quotas, p)
    case Reserved(p) => Include(quotas, p)
    case Unreserved(p) => Exclude(quotas, p)
  }

  function Run(quotas: Quotas, es: seq<Event>): Quotas {
    if es == [] then quotas else Step(Run(quotas, es[..|es| - 1]), es[|es| - 1])
  }

  /** Usage entries are never removed. */
  lemma EntriesStay(quotas: Quotas, p: Pod)
    ensures TracksMore(quotas, Include(quotas, p)) && TracksMore(quotas, Exclude(quotas, p))
  {
  }

  // ----- the ledger is exact -----

  function PodOf(e: Event): Option<Pod> {
    if e.QuotaAdded? || e.QuotaUpdated? || e.QuotaDeleted? then None else Some(e.pod)
  }

  /** requests gives each pod key its one request vector, and every event abides by it. */
  ghost predicate FixedRequest(e: Event, requests: string -> Resource) {
    PodOf(e).Some? ==> SameLookups(Request(PodOf(e).value), requests(PodOf(e).value.uid))
  }

  ghost function RequestAt(requests: string -> Resource, d: Dimension): string -> int {
    uid => requests(uid).At(d)
  }

  ghost predicate ExactQuota(q: Quota, requests: string -> Resource) {
    && "" !in q.pods
    && forall d :: q.used.At(d) == Sum(q.pods, RequestAt(requests, d))
  }

  /** Each ledger records the sum of the requests of exactly the pods it lists. */
  ghost predicate Exact(quotas: Quotas, requests: string -> Resource) {
    forall ns | ns in quotas :: ExactQuota(quotas[ns], requests)
  }

  lemma WithPodStaysExact(q: Quota, p: Pod, requests: string -> Resource)
    requires ExactQuota(q, requests) && SameLookups(Request(p), requests(p.uid))
    ensures ExactQuota(WithPod(q, p), requests)
  {
    if p.uid != "" && p.uid !in q.pods {
      forall d ensures WithPod(q, p).used.At(d) == Sum(WithPod(q, p).pods, RequestAt(requests, d)) {
        SumInsert(q.pods, RequestAt(requests, d), p.uid);
      }
    }
  }

  lemma WithoutPodStaysExact(q: Quota, p: Pod, requests: string -> Resource)
    requires ExactQuota(q, requests) && SameLookups(Request(p), requests(p.uid))
    ensures ExactQuota(WithoutPod(q, p), requests)
  {
    if p.uid in q.pods {
      forall d ensures WithoutPod(q, p).used.At(d) == Sum(WithoutPod(q, p).pods, RequestAt(requests, d)) {
        SumRemove(q.pods, RequestAt(requests, d), p.uid);
      }
    }
  }

  lemma StepStaysExact(quotas: Quotas, e: Event, requests: string -> Resource)
    requires Exact(quotas, requests) && FixedRequest(e, requests)
    ensures Exact(Step(quotas, e), requests)
  {
    if PodOf(e).Some? {
      var p := e.pod;
      if p.namespace in quotas {
        WithPodStaysExact(quotas[p.namespace], p, requests);
        WithoutPodStaysExact(quotas[p.namespace], p, requests);
      }
      if e.PodAdded? && e.listed.Some? && e.listed.value != [] {
        WithPodStaysExact(NewQuota(e.listed.value[0]), p, requests);
      }
    }
  }

  /** After any run of events, in any order and with any repetition, every ledger is exact. */
  lemma {:induction false} RunIsExact(es: seq<Event>, requests: string -> Resource)
    requires forall e | e in es :: FixedRequest(e, requests)
    ensures Exact(Run(map[], es), requests)
    decreases |es|
  {
    if es != [] {
      var front, last := es[..|es| - 1], es[|es| - 1];
      assert es == front + [last];
      RunIsExact(front, requests);
      assert last in es;
      StepStaysExact(Run(map[], front), last, requests);
    }
  }

  // ----- which namespaces have a quota -----

  /** The event brings a quota for ns along, if there is none yet. */
  predicate Grants(e: Event, ns: string) {
    match e
    case QuotaAdded(n, _) => n == ns
    case QuotaUpdated(n, _) => n == ns
    case PodAdded(p, listed) => p.namespace == ns && listed.Some? && listed.value != []
    case _ => false
  }

  ghost predicate GrantedSince(es: seq<Event>, i: nat, ns: string) {
    i < |es| && Grants(es[i], ns) && forall j | i < j < |es| :: es[j] != QuotaDeleted(ns)
  }

  /** By the events alone. */
  ghost predicate HasQuota(es: seq<Event>, ns: string) {
    exists i: nat :: GrantedSince(es, i, ns)
  }

  lemma HasQuotaSnoc(es: seq<Event>, e: Event, ns: string)
    ensures HasQuota(es + [e], ns) <==> Grants(e, ns) || (HasQuota(es, ns) && e != QuotaDeleted(ns))
  {
    var all := es + [e];
    assert all[|es|] == e && forall j | 0 <= j < |es| :: all[j] == es[j];
    if HasQuota(all, ns) {
      var i: nat :| GrantedSince(all, i, ns);
      assert i < |es| ==> GrantedSince(es, i, ns) && e != QuotaDeleted(ns);
    }
    if Grants(e, ns) {
      assert GrantedSince(all, |es|, ns);
    } else if HasQuota(es, ns) && e != QuotaDeleted(ns) {
      var i: nat :| GrantedSince(es, i, ns);
      assert GrantedSince(all, i, ns);
    }
  }

  lemma StepHasQuota(quotas: Quotas, e: Event, ns: string)
    ensures ns in Step(quotas, e) <==> Grants(e, ns) || (ns in quotas && e != QuotaDeleted(ns))
  {
  }

  /** A namespace has a quota exactly when the history says so: an event has brought one along and none has deleted it since. */
  lemma {:induction false} QuotaIffGranted(es: seq<Event>, ns: string)
    ensures ns in Run(map[], es) <==> HasQuota(es, ns)
    decreases |es|
  {
    if es != [] {
      var front, last := es[..|es| - 1], es[|es| - 1];
      assert es == front + [last];
      QuotaIffGranted(front, ns);
      StepHasQuota(Run(map[], front), last, ns);
      HasQuotaSnoc(front, last, ns);
    }
  }

  // ----- which pods a ledger lists -----

  predicate Arrives(e: Event, ns: string, uid: string) {
    (e.PodAdded? || e.Reserved?) && e.pod.namespace == ns && e.pod.uid == uid
  }

  /** An update counts as a departure when it moves the pod from Pending, Running or Unknown to Succeeded, Failed or Unknown. */
  predicate Departs(e: Event, ns: string, uid: string) {
    || e == QuotaDeleted(ns)
    || ((|| e.PodDeleted? || e.Unreserved?
         || (e.PodUpdated? && e.oldPhase in {Pending, Running, Unknown} && e.newPhase in {Succeeded, Failed, Unknown}))
        && e.pod.namespace == ns && e.pod.uid == uid)
  }

  ghost predicate Listed(quotas: Quotas, ns: string, uid: string) {
    ns in quotas && uid in quotas[ns].pods
  }

  /** The pod arrived when its namespace had a quota (or got one by arriving) and has not departed since. */
  ghost predicate PresentSince(es: seq<Event>, i: nat, ns: string, uid: string) {
    && i < |es| && Arrives(es[i], ns, uid) && HasQuota(es[..i + 1], ns)
    && forall j | i < j < |es| :: !Departs(es[j], ns, uid)
  }

  lemma StepListed(quotas: Quotas, e: Event, ns: string, uid: string)
    requires uid != ""
    ensures Listed(Step(quotas, e), ns, uid) <==>
            (Arrives(e, ns, uid) && ns in Step(quotas, e)) || (Listed(quotas, ns, uid) && !Departs(e, ns, uid))
  {
  }

  lemma ExtendPresence(es: seq<Event>, e: Event, i: nat, ns: string, uid: string)
    requires i < |es|
    ensures PresentSince(es + [e], i, ns, uid) <==> PresentSince(es, i, ns, uid) && !Departs(e, ns, uid)
  {
    var all := es + [e];
    assert all[..i + 1] == es[..i + 1];
    assert all[|es|] == e && forall j | 0 <= j < |es| :: all[j] == es[j];
  }

  /** A ledger lists a pod exactly when the history of events says it should. */
  lemma {:induction false} ListedIffPresent(es: seq<Event>, ns: string, uid: string)
    requires uid != ""
    ensures Listed(Run(map[], es), ns, uid) <==> exists i :: PresentSince(es, i, ns, uid)
    decreases |es|
  {
    if es != [] {
      var n := |es| - 1;
      var front, last := es[..n], es[n];
      assert es == front + [last] && es[..n + 1] == es;
      ListedIffPresent(front, ns, uid);
      StepListed(Run(map[], front), last, ns, uid);
      forall i: nat | i < n
        ensures PresentSince(es, i, ns, uid) <==> PresentSince(front, i, ns, uid) && !Departs(last, ns, uid)
      {
        ExtendPresence(front, last, i, ns, uid);
      }
      QuotaIffGranted(es, ns);
      assert PresentSince(es, n, ns, uid) <==> Arrives(last, ns, uid) && ns in Run(map[], es);
    }
  }

  // ----- which limits a ledger enforces -----

  /** The limits that e would give to namespace ns. */
  function SpecIn(e: Event, ns: string): Option<QuotaSpec> {
    match e
    case QuotaAdded(n, spec) => if n == ns then Some(spec) else None
    case QuotaUpdated(n, spec) => if n == ns then Some(spec) else None
    case PodAdded(p, listed) => if p.namespace == ns && listed.Some? && listed.value != [] then Some(listed.value[0]) else None
    case _ => None
  }

  predicate Overrides(e: Event, ns: string) {
    (e.QuotaUpdated? || e.QuotaDeleted?) && e.ns == ns
  }

  /** Event i set the limits of ns (an addition counts only where there was no quota), and nothing has overridden them since. */
  ghost predicate LimitsSince(es: seq<Event>, i: nat, ns: string, min: Resource, max: Resource) {
    && i < |es| && SpecIn(es[i], ns) == Some(QuotaSpec(min, max))
    && (es[i].QuotaUpdated? || !HasQuota(es[..i], ns))
    && forall j | i < j < |es| :: !Overrides(es[j], ns)
  }

  lemma ExtendLimits(es: seq<Event>, e: Event, i: nat, ns: string, min: Resource, max: Resource)
    requires i < |es| && LimitsSince(es, i, ns, min, max) && !Overrides(e, ns)
    ensures LimitsSince(es + [e], i, ns, min, max)
  {
    var all := es + [e];
    assert all[..i] == es[..i];
    assert all[|es|] == e && forall j | 0 <= j < |es| :: all[j] == es[j];
  }

  /** Every quota enforces the Min and Max of the event that last set them. */
  lemma {:induction false} LimitsAreLatest(es: seq<Event>, ns: string) returns (i: nat)
    requires HasQuota(es, ns)
    ensures ns in Run(map[], es) && LimitsSince(es, i, ns, Run(map[], es)[ns].min, Run(map[], es)[ns].max)
    decreases |es|
  {
    QuotaIffGranted(es, ns);
    var n := |es| - 1;
    var front, last := es[..n], es[n];
    assert es == front + [last];
    var before, after := Run(map[], front), Run(map[], es);
    assert after == Step(before, last);
    QuotaIffGranted(front, ns);
    if ns in before && !Overrides(last, ns) {
      assert after[ns].min == before[ns].min && after[ns].max == before[ns].max;
      i := LimitsAreLatest(front, ns);
      ExtendLimits(front, last, i, ns, before[ns].min, before[ns].max);
    } else {
      i := n;
    }
  }

  // ----- conservation -----

  /** Adding a pod twice counts it once; deleting an absent pod changes nothing; deleting
      right after a first add restores every lookup; and the pod's own ledger changes by
      exactly its request while no other ledger changes. */
  lemma AddDeleteConserve(quotas: Quotas, p: Pod)
    requires p.namespace in quotas && p.uid != ""
    ensures Include(Include(quotas, p), p) == Include(quotas, p)
    ensures Exclude(Exclude(quotas, p), p) == Exclude(quotas, p)
    ensures p.uid !in quotas[p.namespace].pods ==> SameLedger(Exclude(Include(quotas, p), p), quotas)
    ensures p.uid in quotas[p.namespace].pods ==> SameLedger(Include(Exclude(quotas, p), p), quotas)
    ensures forall d :: p.uid !in quotas[p.namespace].pods ==>
              TotalUsed(Include(quotas, p), d) == TotalUsed(quotas, d) + Request(p).At(d)
    ensures forall d :: p.uid in quotas[p.namespace].pods ==>
              TotalUsed(Exclude(quotas, p), d) == TotalUsed(quotas, d) - Request(p).At(d)
  {
    var ns, q := p.namespace, quotas[p.namespace];
    if p.uid in q.pods {
      assert q.pods - {p.uid} + {p.uid} == q.pods;
    } else {
      assert q.pods + {p.uid} - {p.uid} == q.pods;
    }
    forall d
      ensures p.uid !in q.pods ==> TotalUsed(Include(quotas, p), d) == TotalUsed(quotas, d) + Request(p).At(d)
      ensures p.uid in q.pods ==> TotalUsed(Exclude(quotas, p), d) == TotalUsed(quotas, d) - Request(p).At(d)
    {
      assert Include(quotas, p).Keys == quotas.Keys == Exclude(quotas, p).Keys;
      SumChangeAt(quotas.Keys, UsedAt(quotas, d), UsedAt(Include(quotas, p), d), ns);
      SumChangeAt(quotas.Keys, UsedAt(quotas, d), UsedAt(Exclude(quotas, p), d), ns);
    }
  }
}
