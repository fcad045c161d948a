// The coscheduling plugin object: counting assigned pods in the node snapshot,
// and the loops that allow or reject the waiting pods of a group.
module Coscheduling {
  import opened Pods
  import opened Wrappers
  import opened Gang
  import opened ClusterCheck

  /** A pod on a node of the snapshot. */
  datatype Placed = Placed(pod: Pod, nodeName: string)

  function Flatten(nodeInfos: seq<seq<Placed>>): seq<Placed> {
    if nodeInfos == [] then [] else Flatten(nodeInfos[..|nodeInfos| - 1]) + nodeInfos[|nodeInfos| - 1]
  }

  predicate Counts(x: Placed, g: GroupId) {
    GroupOf(x.pod) == Some(g) && x.nodeName != ""
  }

  function CountOf(placed: seq<Placed>, g: GroupId): nat {
    if placed == [] then 0
    else CountOf(placed[..|placed| - 1], g) + if Counts(placed[|placed| - 1], g) then 1 else 0
  }

  /** The snapshot shows each assumed pod once, on a node, and no other pod of a group on a node. */
  ghost predicate Shows(nodeInfos: seq<seq<Placed>>, s: State) {
    var placed := Flatten(nodeInfos);
    && (forall i, j | 0 <= i < j < |placed| :: placed[i].pod != placed[j].pod)
    && (forall p :: GroupOf(p).Some? ==> (p in s.stages <==> exists x :: x in placed && x.pod == p && x.nodeName != ""))
  }

  ghost function Counted(placed: seq<Placed>, g: GroupId): set<Pod> {
    if placed == [] then {}
    else Counted(placed[..|placed| - 1], g) + if Counts(placed[|placed| - 1], g) then {placed[|placed| - 1].pod} else {}
  }

  lemma {:induction false} CountedMembers(placed: seq<Placed>, g: GroupId, p: Pod)
    ensures p in Counted(placed, g) <==> exists x :: x in placed && Counts(x, g) && x.pod == p
    decreases |placed|
  {
    if placed != [] {
      CountedMembers(placed[..|placed| - 1], g, p);
      assert placed == placed[..|placed| - 1] + [placed[|placed| - 1]];
    }
  }

  lemma {:induction false} CountIsCardinality(placed: seq<Placed>, g: GroupId)
    requires forall i, j | 0 <= i < j < |placed| :: placed[i].pod != placed[j].pod
    ensures CountOf(placed, g) == |Counted(placed, g)|
    decreases |placed|
  {
    if placed != [] {
      var n := |placed| - 1;
      CountIsCardinality(placed[..n], g);
      CountedMembers(placed[..n], g, placed[n].pod);
    }
  }

  lemma CountOfSnoc(placed: seq<Placed>, x: Placed, g: GroupId)
    ensures CountOf(placed + [x], g) == CountOf(placed, g) + if Counts(x, g) then 1 else 0
  {
    assert (placed + [x])[..|placed|] == placed;
  }

  method CountOnNode(pods: seq<Placed>, g: GroupId, before: nat, ghost earlier: seq<Placed>) returns (count: nat)
    requires g.name != "" && before == CountOf(earlier, g)
    ensures count == CountOf(earlier + pods, g)
  {
    count := before;
    ghost var seen := earlier;
    assert pods[..|pods|] == pods;
    for j := 0 to |pods|
      invariant seen == earlier + pods[..j] && count == CountOf(seen, g)
    {
      var p := pods[j].pod;
      CountOfSnoc(seen, pods[j], g);
      if POD_GROUP_LABEL in p.labels && p.labels[POD_GROUP_LABEL] == g.name && p.namespace == g.namespace && pods[j].nodeName != "" {
        count := count + 1;
      }
      seen := seen + [pods[j]];
    }
  }

  /** The nested loops count the pods that the scheduler has assumed for the group. */
  method CalculateAssignedPods(nodeInfos: seq<seq<Placed>>, g: GroupId, ghost s: State) returns (count: nat)
    requires g.name != "" && Shows(nodeInfos, s)
    ensures count == |Assigned(s, g)|
  {
    count := 0;
    assert nodeInfos[..|nodeInfos|] == nodeInfos;
    for i := 0 to |nodeInfos|
      invariant count == CountOf(Flatten(nodeInfos[..i]), g)
    {
      assert nodeInfos[..i + 1][..i] == nodeInfos[..i];
      count := CountOnNode(nodeInfos[i], g, count, Flatten(nodeInfos[..i]));
    }
    CountIsAssigned(nodeInfos, g, s);
  }

  lemma CountIsAssigned(nodeInfos: seq<seq<Placed>>, g: GroupId, s: State)
    requires Shows(nodeInfos, s)
    ensures CountOf(Flatten(nodeInfos), g) == |Assigned(s, g)|
  {
    var placed := Flatten(nodeInfos);
    CountIsCardinality(placed, g);
    forall p ensures p in Counted(placed, g) <==> p in Assigned(s, g) {
      CountedMembers(placed, g, p);
    }
    assert Counted(placed, g) == Assigned(s, g);
  }

  datatype Status = Success | Wait | Unresolvable

  /** What PreFilter goes by, besides the caches: the number of pods that carry the group's label,
      the group's minimum resources if it sets any, and the nodes. */
  datatype Cluster = Cluster(siblings: nat, minResources: Option<Amounts>, nodes: seq<Option<Node>>)

  function FullName(g: GroupId): string {
    g.namespace + "/" + g.name
  }

  class Plugin {
    const minMember: map<GroupId, int>
    var stages: map<Pod, Stage>
    var denied: set<GroupId>
    var permitted: set<GroupId>

    ghost function Value(): State
      reads this
    {
      State(stages, minMember, denied, permitted)
    }

    /** Visits the waiting pods in no particular order and signals those of the group. */
    method SignalWaiting(g: GroupId, stage: Stage)
      requires stage != Waiting
      modifies this`stages
      ensures stages == Signal(old(stages), g, stage)
    {
      var todo := stages.Keys;
      while todo != {}
        invariant todo <= stages.Keys == old(stages.Keys)
        invariant forall p | p in stages :: stages[p] == if p in todo then old(stages[p]) else Signal(old(stages), g, stage)[p]
        decreases todo
      {
        var p :| p in todo;
        if stages[p] == Waiting && GroupOf(p) == Some(g) {
          stages := stages[p := stage];
        }
        todo := todo - {p};
      }
    }

    method Permit(p: Pod, nodeInfos: seq<seq<Placed>>) returns (status: Status)
      requires Enabled(Value(), Action.Permit(p)) && Shows(nodeInfos, Value())
      modifies this`stages
      ensures Value() == Next(old(Value()), Action.Permit(p))
      ensures status == if p !in stages then Unresolvable else if stages[p] == Released then Success else Wait
    {
      if GroupOf(p) == None {
        stages := stages[p := Released];
        return Success;
      }
      var g := GroupOf(p).value;
      if g !in minMember { return Unresolvable; }
      var count := CalculateAssignedPods(nodeInfos, g, Value());
      if count + 1 >= minMember[g] {
        SignalWaiting(g, Released);
        stages := stages[p := Released];
        return Success;
      }
      stages := stages[p := Waiting];
      return Wait;
    }

    method Unreserve(p: Pod)
      requires Enabled(Value(), Action.Unreserve(p))
      modifies this
      ensures Value() == Next(old(Value()), Action.Unreserve(p))
    {
      if GroupOf(p) == None || GroupOf(p).value !in minMember { return; }
      var g := GroupOf(p).value;
      SignalWaiting(g, Rejected);
      denied, permitted := denied + {g}, permitted - {g};
    }

    /** A pod that PreFilter already turned away leaves its group alone. */
    method PostFilter(p: Pod, failedPreFilter: bool, nodeInfos: seq<seq<Placed>>)
      requires Enabled(Value(), Action.PostFilter(p)) && Shows(nodeInfos, Value())
      modifies this
      ensures Value() == if failedPreFilter then old(Value()) else Next(old(Value()), Action.PostFilter(p))
    {
      if failedPreFilter { return; }
      if GroupOf(p) == None || GroupOf(p).value !in minMember { return; }
      var g := GroupOf(p).value;
      var count := CalculateAssignedPods(nodeInfos, g, Value());
      if count >= minMember[g] { return; }
      if (minMember[g] - count) * 10 <= minMember[g] { return; }
      SignalWaiting(g, Rejected);
      denied, permitted := denied + {g}, permitted - {g};
    }

    /** Lets a pod of a group through exactly when the group is not on the deny list, has enough
        pods, and (unless it states no minimum, or has passed before) fits into the cluster as
        a whole, with one pod slot per member; a group that does not fit goes onto the deny list. */
    method PreFilter(p: Pod, c: Cluster) returns (ok: bool)
      requires forall i | 0 <= i < |c.nodes| && c.nodes[i].Some? :: Consistent(c.nodes[i].value)
      modifies this`denied, this`permitted
      ensures GroupOf(p).None? || GroupOf(p).value !in minMember ==> ok && Value() == old(Value())
      ensures GroupOf(p).Some? && GroupOf(p).value in minMember ==>
                var g := GroupOf(p).value;
                var fits := c.minResources.None? || g in old(permitted) ||
                            Enough(c.nodes, g.namespace + "/" + g.name, c.minResources.value["pods" := minMember[g]]);
                && (ok <==> g !in old(denied) && c.siblings >= minMember[g] && fits)
                && denied == old(denied) + (if g !in old(denied) && c.siblings >= minMember[g] && !fits then {g} else {})
                && permitted == old(permitted) + (if ok && c.minResources.Some? then {g} else {})
    {
      if GroupOf(p) == None || GroupOf(p).value !in minMember { return true; }
      var g := GroupOf(p).value;
      if g in denied { return false; }
      if c.siblings < minMember[g] { return false; }
      if c.minResources == None { return true; }
      if g in permitted { return true; }
      ok := CheckClusterResource(c.nodes, c.minResources.value["pods" := minMember[g]], FullName(g));
      if ok {
        permitted := permitted + {g};
      } else {
        denied := denied + {g};
      }
    }
  }
}
