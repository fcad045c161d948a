// dryRunPreemption: one goroutine per node, each on its own copies, all of them
// appending to one list of candidates under a lock.
module DryRun {
  import opened Sums
  import opened Resources
  import opened Pods
  import opened Wrappers
  import opened ElasticQuota
  import opened PodDisruption
  import opened SelectVictims
  import opened NodeTrial
  import opened VictimSelection

  datatype Candidate = Candidate(node: string, victims: Victims)

  // ----- what the nodes contribute, taken in some order -----

  function Collect(order: seq<nat>, contribution: nat -> Option<Candidate>): seq<Candidate> {
    if order == [] then []
    else
      var front, c := Collect(order[..|order| - 1], contribution), contribution(order[|order| - 1]);
      if c.Some? then front + [c.value] else front
  }

  ghost function Hits(contribution: nat -> Option<Candidate>, c: Candidate): nat -> int {
    (i: nat) => if contribution(i) == Some(c) then 1 else 0
  }

  lemma {:induction false} CollectCounts(order: seq<nat>, contribution: nat -> Option<Candidate>, c: Candidate)
    ensures multiset(Collect(order, contribution))[c] == SeqSum(order, Hits(contribution, c))
    decreases |order|
  {
    if order != [] {
      CollectCounts(order[..|order| - 1], contribution, c);
    }
  }

  /** The order in which the goroutines report does not change which candidates there are. */
  lemma CollectPermutation(order: seq<nat>, other: seq<nat>, contribution: nat -> Option<Candidate>)
    requires multiset(order) == multiset(other)
    ensures multiset(Collect(order, contribution)) == multiset(Collect(other, contribution))
  {
    forall c: Candidate
      ensures multiset(Collect(order, contribution))[c] == multiset(Collect(other, contribution))[c]
    {
      CollectCounts(order, contribution, c);
      CollectCounts(other, contribution, c);
      SeqSumPermutation(order, other, Hits(contribution, c));
    }
  }

  function UpTo(n: nat): seq<nat> {
    seq(n, i requires 0 <= i < n => i)
  }

  lemma AllReported(order: seq<nat>, n: nat)
    requires forall i: nat :: i in order <==> i < n
    requires forall j, k | 0 <= j < k < |order| :: order[j] != order[k]
    ensures multiset(order) == multiset(UpTo(n))
  {
    forall i: nat ensures multiset(order)[i] == multiset(UpTo(n))[i] {
      CountDistinct(order, i);
      CountDistinct(UpTo(n), i);
      if i < n {
        assert UpTo(n)[i] == i;
      }
    }
  }

  lemma {:induction false} CountDistinct(s: seq<nat>, x: nat)
    requires forall j, k | 0 <= j < k < |s| :: s[j] != s[k]
    ensures multiset(s)[x] == if x in s then 1 else 0
    decreases |s|
  {
    if s != [] {
      var n := |s| - 1;
      assert s == s[..n] + [s[n]];
      assert s[n] !in s[..n];
      CountDistinct(s[..n], x);
    }
  }

  /** How often a candidate is collected from n nodes: as often as nodes contribute it. */
  lemma {:induction false} HitsAreNodes(n: nat, contribution: nat -> Option<Candidate>, c: Candidate)
    ensures SeqSum(UpTo(n), Hits(contribution, c)) == |set i: nat | i < n && contribution(i) == Some(c)|
  {
    if n > 0 {
      HitsAreNodes(n - 1, contribution, c);
      assert UpTo(n) == UpTo(n - 1) + [n - 1];
      var last: nat := n - 1;
      SeqSumSnoc(UpTo(n - 1), last, Hits(contribution, c));
      var front := set i: nat | i < n - 1 && contribution(i) == Some(c);
      assert (set i: nat | i < n && contribution(i) == Some(c)) == if contribution(n - 1) == Some(c) then front + {n - 1} else front;
    }
  }

  // ----- the dry run -----

  /** The private copies of one goroutine. */
  datatype Copies = Copies(node: NodeInfo, infos: ElasticQuotaInfos)

  /** How far a goroutine has come: it copies, selects victims on the copies, and reports. */
  datatype Progress = NotStarted | Copied(copies: Copies) | Selected(result: Option<Victims>) | Reported

  /** What the dry run is given: the node names and pods, and the quota snapshot, as they stay throughout. */
  datatype Input = Input(s: Scheduler, budgets: seq<Budget>, preemptor: Pod, names: seq<string>, onNode: seq<seq<Pod>>, quotas: Quotas)
  {
    ghost predicate Valid() {
      s.Valid() && |names| == |onNode| && Settled(quotas, Request(preemptor)) && forall pods | pods in onNode :: Keyed(pods)
    }

    ghost function SelectionAt(i: nat): Option<Victims>
      requires i < |onNode|
    {
      Selection(s, budgets, preemptor, onNode[i], quotas)
    }

    /** What checking node i all by itself contributes. */
    ghost function Contribution(): nat -> Option<Candidate> {
      (i: nat) =>
        if i < |names| && i < |onNode| && SelectionAt(i).Some? then Some(Candidate(names[i], SelectionAt(i).value)) else None
    }
  }

  ghost function Footprint(c: Copies): set<object>
    reads c.infos
  {
    {c.node} + c.infos.Repr
  }

  /** A goroutine's copies, still as they were made. */
  ghost predicate Pristine(c: Copies, pods: seq<Pod>, quotas: Quotas)
    reads c.node, c.infos, c.infos.Repr
  {
    c.infos.Valid() && c.node !in c.infos.Repr && c.node.pods == pods && c.infos.quotas == quotas
  }

  method MakeCopies(node: NodeInfo, snapshot: ElasticQuotaInfos) returns (c: Copies)
    requires snapshot.Valid()
    ensures fresh(Footprint(c)) && Pristine(c, node.pods, snapshot.quotas)
  {
    var nodeCopy := node.Clone();
    label L:
    assert allocated(nodeCopy) && nodeCopy.pods == node.pods;
    var stateCopy := snapshot.Clone();
    assert fresh@L(stateCopy.Repr);
    assert nodeCopy !in stateCopy.Repr;
    c := Copies(nodeCopy, stateCopy);
  }

  /** Every goroutine that has copied still finds its copies as it made them, and shares no object with another. */
  ghost predicate Undisturbed(input: Input, progress: seq<Progress>)
    reads *
  {
    && |progress| == |input.onNode|
    && (forall k | 0 <= k < |progress| && progress[k].Copied? ::
          Pristine(progress[k].copies, input.onNode[k], input.quotas))
    && (forall j, k | 0 <= j < k < |progress| && progress[j].Copied? && progress[k].Copied? ::
          Footprint(progress[j].copies) !! Footprint(progress[k].copies))
  }

  method CopyFor(ghost input: Input, ghost progress: seq<Progress>, ghost i: nat, node: NodeInfo, snapshot: ElasticQuotaInfos)
    returns (c: Copies)
    requires i < |progress| && progress[i].NotStarted? && Undisturbed(input, progress)
    requires snapshot.Valid() && snapshot.quotas == input.quotas && node.pods == input.onNode[i]
    ensures fresh(Footprint(c)) && Undisturbed(input, progress[i := Copied(c)])
  {
    c := MakeCopies(node, snapshot);
    forall k | 0 <= k < |progress| && progress[k].Copied?
      ensures Pristine(progress[k].copies, input.onNode[k], input.quotas)
      ensures Footprint(progress[k].copies) !! Footprint(c)
    {
      assert old(Pristine(progress[k].copies, input.onNode[k], input.quotas));
      assert Footprint(progress[k].copies) == old(Footprint(progress[k].copies));
    }
  }

  /** Goroutine i selects victims on its copies; the copies of the others stay out of it. */
  method SelectOnCopies(ghost input: Input, ghost progress: seq<Progress>, ghost i: nat,
                        s: Scheduler, budgets: seq<Budget>, preemptor: Pod, request: Resource, c: Copies)
    returns (r: Option<Victims>)
    requires input.Valid() && i < |progress| && progress[i] == Copied(c) && Undisturbed(input, progress)
    requires s == input.s && budgets == input.budgets && preemptor == input.preemptor && request == Request(preemptor)
    modifies Footprint(c)
    ensures r == input.SelectionAt(i)
    ensures Undisturbed(input, progress[i := Selected(r)])
    ensures forall k | 0 <= k < |progress| && progress[k].Copied? ::
              Footprint(progress[k].copies) == old(Footprint(progress[k].copies))
  {
    assert input.onNode[i] in input.onNode;
    r := SelectVictimsOnNode(s, budgets, preemptor, request, c.node, c.infos);
    forall k | 0 <= k < |progress| && progress[k].Copied? && k != i
      ensures Pristine(progress[k].copies, input.onNode[k], input.quotas)
      ensures Footprint(progress[k].copies) == old(Footprint(progress[k].copies))
    {
      assert old(Pristine(progress[k].copies, input.onNode[k], input.quotas));
      assert old(Footprint(progress[k].copies) !! Footprint(c));
    }
  }

  lemma ContributorsOf(input: Input, c: Candidate)
    requires input.Valid()
    ensures multiset(Collect(UpTo(|input.names|), input.Contribution()))[c] ==
            |set i: nat | i < |input.names| && input.names[i] == c.node &&
                          Selection(input.s, input.budgets, input.preemptor, input.onNode[i], input.quotas) == Some(c.victims)|
  {
    CollectCounts(UpTo(|input.names|), input.Contribution(), c);
    HitsAreNodes(|input.names|, input.Contribution(), c);
    assert (set i: nat | i < |input.names| && input.Contribution()(i) == Some(c)) ==
           set i: nat | i < |input.names| && input.names[i] == c.node &&
                        Selection(input.s, input.budgets, input.preemptor, input.onNode[i], input.quotas) == Some(c.victims);
  }

  // ----- the bookkeeping, apart from the copies -----

  /** order lists the nodes that have reported, in the order of their reports. */
  ghost predicate Tallied(input: Input, progress: seq<Progress>, order: seq<nat>, candidates: seq<Candidate>) {
    && |progress| == |input.names| == |input.onNode|
    && (forall i | 0 <= i < |progress| && progress[i].Selected? :: progress[i].result == input.SelectionAt(i))
    && (forall i: nat :: i in order <==> i < |progress| && progress[i].Reported?)
    && (forall j, k | 0 <= j < k < |order| :: order[j] != order[k])
    && candidates == Collect(order, input.Contribution())
  }

  lemma TallyReport(input: Input, progress: seq<Progress>, order: seq<nat>, candidates: seq<Candidate>, i: nat)
    requires Tallied(input, progress, order, candidates)
    requires i < |progress| && progress[i].Selected?
    ensures var r := progress[i].result;
            Tallied(input, progress[i := Reported], order + [i],
                    if r.Some? then candidates + [Candidate(input.names[i], r.value)] else candidates)
  {
    assert (order + [i])[..|order|] == order;
    assert i !in order;
  }

  lemma TallyElse(input: Input, progress: seq<Progress>, order: seq<nat>, candidates: seq<Candidate>, i: nat, p: Progress)
    requires Tallied(input, progress, order, candidates)
    requires i < |progress| && !progress[i].Reported? && !p.Reported?
    requires p.Selected? ==> p.result == input.SelectionAt(i)
    ensures Tallied(input, progress[i := p], order, candidates)
  {
  }

  ghost function Weight(p: Progress): nat {
    match p case NotStarted => 3 case Copied(_) => 2 case Selected(_) => 1 case Reported => 0
  }

  ghost function Remaining(progress: seq<Progress>): nat {
    if progress == [] then 0 else Remaining(progress[..|progress| - 1]) + Weight(progress[|progress| - 1])
  }

  lemma {:induction false} RemainingUpdate(progress: seq<Progress>, i: nat, p: Progress)
    requires i < |progress| && Weight(p) < Weight(progress[i])
    ensures Remaining(progress[i := p]) < Remaining(progress)
    decreases |progress|
  {
    var n := |progress| - 1;
    if i < n {
      RemainingUpdate(progress[..n], i, p);
      assert progress[i := p][..n] == progress[..n][i := p];
    } else {
      assert progress[i := p][..n] == progress[..n];
    }
  }

  // ----- the dry run -----

  method AnyUnfinished(progress: seq<Progress>) returns (i: nat, found: bool)
    ensures found ==> i < |progress| && !progress[i].Reported?
    ensures !found ==> forall k | 0 <= k < |progress| :: progress[k].Reported?
  {
    found := exists k | 0 <= k < |progress| :: !progress[k].Reported?;
    i := 0;
    if found {
      i :| i < |progress| && !progress[i].Reported?;
    }
  }

  /** Appends what goroutine i has found to the candidates. */
  method Report(ghost input: Input, progress: seq<Progress>, i: nat, candidates: seq<Candidate>, ghost order: seq<nat>, node: NodeInfo)
    returns (candidates': seq<Candidate>)
    requires Tallied(input, progress, order, candidates) && Undisturbed(input, progress)
    requires i < |progress| && progress[i].Selected? && node.name == input.names[i]
    ensures Tallied(input, progress[i := Reported], order + [i], candidates') && Undisturbed(input, progress[i := Reported])
  {
    candidates' := candidates;
    TallyReport(input, progress, order, candidates, i);
    if progress[i].result.Some? {
      candidates' := candidates + [Candidate(node.name, progress[i].result.value)];
    }
  }

  /** One step of goroutine i. */
  method Advance(ghost input: Input, progress: seq<Progress>, i: nat, candidates: seq<Candidate>, ghost order: seq<nat>,
                 s: Scheduler, budgets: seq<Budget>, preemptor: Pod, request: Resource, node: NodeInfo, snapshot: ElasticQuotaInfos)
    returns (p: Progress, candidates': seq<Candidate>, ghost order': seq<nat>)
    requires input.Valid() && s == input.s && budgets == input.budgets && preemptor == input.preemptor
    requires request == Request(preemptor) && snapshot.Valid() && snapshot.quotas == input.quotas
    requires Tallied(input, progress, order, candidates) && Undisturbed(input, progress)
    requires i < |progress| && !progress[i].Reported?
    requires node.name == input.names[i] && node.pods == input.onNode[i]
    modifies if progress[i].Copied? then Footprint(progress[i].copies) else {}
    ensures Tallied(input, progress[i := p], order', candidates') && Undisturbed(input, progress[i := p])
    ensures Weight(p) < Weight(progress[i])
    ensures p.Copied? ==> fresh(Footprint(p.copies))
    ensures forall k | 0 <= k < |progress| && progress[k].Copied? ::
              Footprint(progress[k].copies) == old(Footprint(progress[k].copies))
  {
    candidates', order' := candidates, order;
    match progress[i]
    case NotStarted =>
      var c := CopyFor(input, progress, i, node, snapshot);
      p := Copied(c);
      TallyElse(input, progress, order, candidates, i, p);
    case Copied(c) =>
      var r := SelectOnCopies(input, progress, i, s, budgets, preemptor, request, c);
      p := Selected(r);
      TallyElse(input, progress, order, candidates, i, p);
    case Selected(_) =>
      candidates' := Report(input, progress, i, candidates, order, node);
      p, order' := Reported, order + [i];
  }

  /** Whichever goroutine runs next, and however far the others have come, the candidates are in
      the end those of checking the nodes one by one; nodes and snapshot are left as they were. */
  method DryRunPreemption(ghost input: Input, s: Scheduler, budgets: seq<Budget>, preemptor: Pod, request: Resource,
                          potentialNodes: seq<NodeInfo>, snapshot: ElasticQuotaInfos) returns (candidates: seq<Candidate>)
    requires input.Valid() && s == input.s && budgets == input.budgets && preemptor == input.preemptor
    requires request == Request(preemptor) && snapshot.Valid() && snapshot.quotas == input.quotas
    requires |potentialNodes| == |input.names|
    requires forall i | 0 <= i < |potentialNodes| ::
               potentialNodes[i].name == input.names[i] && potentialNodes[i].pods == input.onNode[i]
    ensures forall c: Candidate ::
              multiset(candidates)[c] ==
              |set i: nat | i < |potentialNodes| && input.names[i] == c.node &&
                            Selection(s, budgets, preemptor, input.onNode[i], input.quotas) == Some(c.victims)|
  {
    var n := |potentialNodes|;
    ghost var order: seq<nat> := [];
    var progress := seq(n, i => NotStarted);
    candidates := [];
    var i, found := AnyUnfinished(progress);
    while found
      invariant |progress| == n && Tallied(input, progress, order, candidates)
      invariant found ==> 0 <= i < n && !progress[i].Reported?
      invariant !found ==> forall k | 0 <= k < n :: progress[k].Reported?
      invariant Undisturbed(input, progress)
      invariant forall k | 0 <= k < n && progress[k].Copied? :: fresh(Footprint(progress[k].copies))
      decreases Remaining(progress)
    {
      var p;
      p, candidates, order := Advance(input, progress, i, candidates, order, s, budgets, preemptor, request, potentialNodes[i], snapshot);
      RemainingUpdate(progress, i, p);
      progress := progress[i := p];
      i, found := AnyUnfinished(progress);
    }
    AllReported(order, n);
    CollectPermutation(order, UpTo(n), input.Contribution());
    forall c: Candidate
      ensures multiset(candidates)[c] ==
              |set i: nat | i < n && input.names[i] == c.node && Selection(s, budgets, preemptor, input.onNode[i], input.quotas) == Some(c.victims)|
    {
      ContributorsOf(input, c);
    }
  }
}
