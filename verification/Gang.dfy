// Gang scheduling as a step system: what happens to the pods of pod groups
// between Permit and binding.
module Gang {
  import opened Pods
  import opened Wrappers

  const POD_GROUP_LABEL := "pod-group.scheduling.sigs.k8s.io"

  datatype GroupId = GroupId(namespace: string, name: string)

  function GroupOf(p: Pod): Option<GroupId> {
    if POD_GROUP_LABEL in p.labels && p.labels[POD_GROUP_LABEL] != "" then
      Some(GroupId(p.namespace, p.labels[POD_GROUP_LABEL]))
    else None
  }

  /** A pod that the scheduler has assumed onto a node. A rejected pod stays assumed (and in
      the node snapshot) until its binding goroutine has seen the rejection and forgotten it. */
  datatype Stage = Waiting | Rejected | Released

  /** minMember holds the groups that the lister knows. */
  datatype State = State(stages: map<Pod, Stage>, minMember: map<GroupId, int>, denied: set<GroupId>, permitted: set<GroupId>)

  ghost function Assigned(s: State, g: GroupId): set<Pod> {
    set p | p in s.stages && GroupOf(p) == Some(g)
  }

  ghost function At(s: State, g: GroupId, stage: Stage): set<Pod> {
    set p | p in s.stages && GroupOf(p) == Some(g) && s.stages[p] == stage
  }

  /** Signals every waiting pod of g; the first signal that a waiting pod gets is final. */
  function Signal(stages: map<Pod, Stage>, g: GroupId, stage: Stage): map<Pod, Stage> {
    map p | p in stages :: if stages[p] == Waiting && GroupOf(p) == Some(g) then stage else stages[p]
  }

  ghost predicate Ready(s: State, g: GroupId)
    requires g in s.minMember
  {
    |Assigned(s, g)| + 1 >= s.minMember[g]
  }

  /** Rejects the waiting pods of g and puts g on the deny list. */
  function RejectGroup(s: State, g: GroupId): State {
    s.(stages := Signal(s.stages, g, Rejected), denied := s.denied + {g}, permitted := s.permitted - {g})
  }

  datatype Action =
    | Permit(pod: Pod)
    | TimeOut(pod: Pod)      // the wait of one pod ends in a rejection
    | Unreserve(pod: Pod)    // the binding goroutine of a rejected pod notices
    | Forget(pod: Pod)       // and gives its node back
    | PostFilter(pod: Pod)   // a pod of the group turned out to fit nowhere
    | Expire(group: GroupId) // the cache entries of the group run out

  predicate Enabled(s: State, a: Action) {
    match a
    case Permit(p) => p !in s.stages
    case TimeOut(p) => p in s.stages && s.stages[p] == Waiting
    case Unreserve(p) => p in s.stages && s.stages[p] == Rejected
    case Forget(p) => p in s.stages && s.stages[p] == Rejected
    case PostFilter(p) => p !in s.stages
    case Expire(_) => true
  }

  ghost function AfterPermit(s: State, p: Pod): State {
    if GroupOf(p).None? then s.(stages := s.stages[p := Released])
    else
      var g := GroupOf(p).value;
      if g !in s.minMember then s
      else if Ready(s, g) then s.(stages := Signal(s.stages, g, Released)[p := Released])
      else s.(stages := s.stages[p := Waiting])
  }

  /** The whole group is rejected unless it has enough pods, or lacks at most a tenth of them. */
  ghost function AfterPostFilter(s: State, p: Pod): State {
    if GroupOf(p).None? || GroupOf(p).value !in s.minMember then s
    else
      var g := GroupOf(p).value;
      var count, min := |Assigned(s, g)|, s.minMember[g];
      if count >= min || (min - count) * 10 <= min then s else RejectGroup(s, g)
  }

  ghost function Next(s: State, a: Action): State {
    match a
    case Permit(p) => AfterPermit(s, p)
    case TimeOut(p) => s.(stages := s.stages[p := Rejected])
    case Unreserve(p) =>
      if GroupOf(p).None? || GroupOf(p).value !in s.minMember then s else RejectGroup(s, GroupOf(p).value)
    case Forget(p) => s.(stages := s.stages - {p})
    case PostFilter(p) => AfterPostFilter(s, p)
    case Expire(g) => s.(denied := s.denied - {g}, permitted := s.permitted - {g})
  }

  // ----- all or nothing -----

  /** Of group g nothing has been released, or at least minMember pods have and none is left waiting. */
  ghost predicate WholeGang(s: State, g: GroupId)
    requires g in s.minMember
  {
    At(s, g, Released) == {} || (|At(s, g, Released)| >= s.minMember[g] && At(s, g, Waiting) == {})
  }

  ghost predicate AllOrNothing(s: State) {
    forall g | g in s.minMember :: WholeGang(s, g)
  }

  /** A Permit that finds the group complete only because rejected pods that still hold their nodes are counted in. */
  ghost predicate Tipped(s: State, a: Action) {
    && a.Permit? && GroupOf(a.pod).Some?
    && var g := GroupOf(a.pod).value;
       && g in s.minMember && Ready(s, g)
       && At(s, g, Released) == {} && |At(s, g, Waiting)| + 1 < s.minMember[g]
  }

  lemma DisjointCount(a: set<Pod>, b: set<Pod>, c: set<Pod>)
    requires a !! b && a !! c && b !! c
    ensures |a + b + c| == |a| + |b| + |c|
  {
    assert (a + b) !! c;
  }

  lemma StagesCover(s: State, g: GroupId)
    ensures Assigned(s, g) == At(s, g, Waiting) + At(s, g, Rejected) + At(s, g, Released)
    ensures At(s, g, Waiting) !! At(s, g, Rejected) && At(s, g, Waiting) !! At(s, g, Released)
    ensures At(s, g, Rejected) !! At(s, g, Released)
  {
  }

  lemma StagesPartition(s: State, g: GroupId)
    ensures |Assigned(s, g)| == |At(s, g, Waiting)| + |At(s, g, Rejected)| + |At(s, g, Released)|
  {
    StagesCover(s, g);
    DisjointCount(At(s, g, Waiting), At(s, g, Rejected), At(s, g, Released));
  }

  /** What a permitting step does to the group of the pod, and that it does nothing to any other. */
  lemma PermitReleases(s: State, p: Pod, g: GroupId)
    requires p !in s.stages && g in s.minMember
    ensures var s' := AfterPermit(s, p);
            if GroupOf(p) != Some(g) then
              forall stage :: At(s', g, stage) == At(s, g, stage)
            else if Ready(s, g) then
              At(s', g, Released) == At(s, g, Released) + At(s, g, Waiting) + {p} && At(s', g, Waiting) == {}
            else
              At(s', g, Released) == At(s, g, Released) && At(s', g, Waiting) == At(s, g, Waiting) + {p}
  {
  }

  lemma OthersRelease(s: State, a: Action, g: GroupId)
    requires Enabled(s, a) && !a.Permit?
    ensures At(Next(s, a), g, Released) == At(s, g, Released)
    ensures At(Next(s, a), g, Waiting) <= At(s, g, Waiting)
  {
  }

  /** One step keeps all-or-nothing exactly when it is not a tipped Permit. */
  lemma StepIsWholeIffNotTipped(s: State, a: Action)
    requires AllOrNothing(s) && Enabled(s, a)
    ensures AllOrNothing(Next(s, a)) <==> !Tipped(s, a)
  {
    assert Next(s, a).minMember == s.minMember;
    if a.Permit? {
      forall g | g in s.minMember
        ensures WholeGang(Next(s, a), g) <==> !(Tipped(s, a) && GroupOf(a.pod) == Some(g))
      {
        PermitKeepsWhole(s, a.pod, g);
      }
      if Tipped(s, a) {
        assert !WholeGang(Next(s, a), GroupOf(a.pod).value);
      }
    } else {
      forall g | g in s.minMember ensures WholeGang(Next(s, a), g) {
        OthersRelease(s, a, g);
        assert WholeGang(s, g);
      }
    }
  }

  /** A completing Permit releases the pods that were waiting and the new one. */
  lemma ReleaseCount(s: State, p: Pod, g: GroupId)
    requires p !in s.stages && g in s.minMember && GroupOf(p) == Some(g) && Ready(s, g)
    ensures |At(AfterPermit(s, p), g, Released)| == |At(s, g, Released)| + |At(s, g, Waiting)| + 1
  {
    PermitReleases(s, p, g);
    var waiting, released := At(s, g, Waiting), At(s, g, Released);
    assert released !! waiting && p !in released + waiting;
    assert |released + waiting| == |released| + |waiting|;
    assert |released + waiting + {p}| == |released + waiting| + 1;
  }

  lemma PermitKeepsWhole(s: State, p: Pod, g: GroupId)
    requires p !in s.stages && g in s.minMember && WholeGang(s, g)
    ensures WholeGang(AfterPermit(s, p), g) <==> !(Tipped(s, Permit(p)) && GroupOf(p) == Some(g))
  {
    var s' := AfterPermit(s, p);
    PermitReleases(s, p, g);
    if GroupOf(p) == Some(g) {
      if Ready(s, g) {
        ReleaseCount(s, p, g);
        assert p in At(s', g, Released);
      } else {
        StagesPartition(s, g);
      }
    }
  }

  // ----- rejection -----

  /** A rejection leaves no pod of the group waiting and denies the group; a pod that has been released is past recall. */
  lemma RejectionIsComplete(s: State, g: GroupId)
    ensures var s' := RejectGroup(s, g);
            && At(s', g, Waiting) == {} && At(s', g, Rejected) == At(s, g, Rejected) + At(s, g, Waiting)
            && At(s', g, Released) == At(s, g, Released)
            && g in s'.denied && g !in s'.permitted
            && forall other, stage :: other != g ==> At(s', other, stage) == At(s, other, stage)
  {
  }

  /** All pods of the group that wait are rejected and no other pod is signalled; the group is denied. */
  ghost predicate GroupIsRejected(s: State, s': State, g: GroupId) {
    && s'.stages.Keys == s.stages.Keys && s'.minMember == s.minMember
    && (forall q | q in s.stages ::
          s'.stages[q] == if GroupOf(q) == Some(g) && s.stages[q] == Waiting then Rejected else s.stages[q])
    && s'.denied == s.denied + {g} && s'.permitted == s.permitted - {g}
  }

  /** When the binding goroutine of one rejected pod notices, its whole group is rejected, provided the group is known. */
  lemma UnreserveRejectsGroup(s: State, p: Pod, g: GroupId)
    requires Enabled(s, Unreserve(p)) && GroupOf(p) == Some(g)
    ensures var s' := Next(s, Unreserve(p));
            if g !in s.minMember then s' == s
            else GroupIsRejected(s, s', g) && At(s', g, Waiting) == {} && g in s'.denied && g !in s'.permitted
  {
    if g in s.minMember {
      RejectionIsComplete(s, g);
    }
  }

  /** A pod that fits nowhere has its group rejected exactly if fewer than nine tenths of MinMember hold nodes. */
  lemma PostFilterRejectsIff(s: State, p: Pod, g: GroupId)
    requires Enabled(s, PostFilter(p)) && GroupOf(p) == Some(g) && g in s.minMember
    ensures var s', holders := Next(s, PostFilter(p)), set q | q in s.stages && GroupOf(q) == Some(g);
            if 10 * |holders| >= 9 * s.minMember[g] then s' == s
            else GroupIsRejected(s, s', g) && At(s', g, Waiting) == {} && g in s'.denied && g !in s'.permitted
  {
    assert Assigned(s, g) == set q | q in s.stages && GroupOf(q) == Some(g);
    if 10 * |Assigned(s, g)| < 9 * s.minMember[g] {
      RejectionIsComplete(s, g);
    }
  }

  /** Permit lets the group go exactly if the pods that hold nodes and the new one number at least MinMember. */
  lemma PermitReleasesIff(s: State, p: Pod, g: GroupId)
    requires Enabled(s, Permit(p)) && GroupOf(p) == Some(g) && g in s.minMember
    ensures var s', holders := Next(s, Permit(p)), set q | q in s.stages && GroupOf(q) == Some(g);
            var complete := |holders| + 1 >= s.minMember[g];
            && s'.stages.Keys == s.stages.Keys + {p} && s'.stages[p] == (if complete then Released else Waiting)
            && (forall q | q in s.stages ::
                  s'.stages[q] == if complete && GroupOf(q) == Some(g) && s.stages[q] == Waiting then Released else s.stages[q])
            && s' == s.(stages := s'.stages)
  {
    assert Assigned(s, g) == set q | q in s.stages && GroupOf(q) == Some(g);
  }

  /** A pod outside any group is let go at once; one whose group is unknown gets no further, and no other pod is affected. */
  lemma PermitWithoutGroup(s: State, p: Pod)
    requires Enabled(s, Permit(p)) && (GroupOf(p).None? || GroupOf(p).value !in s.minMember)
    ensures Next(s, Permit(p)) == if GroupOf(p).None? then s.(stages := s.stages[p := Released]) else s
  {
  }

  /** The remaining steps: a time-out rejects one pod, forgetting takes one pod off its node, and with its
      cache entries a group is neither denied nor permitted any more. Nothing else changes. */
  lemma SmallSteps(s: State, a: Action, p: Pod, g: GroupId)
    requires Enabled(s, a)
    ensures a == TimeOut(p) ==> Next(s, a) == State(s.stages[p := Rejected], s.minMember, s.denied, s.permitted)
    ensures a == Forget(p) ==> Next(s, a) == State(map q | q in s.stages && q != p :: s.stages[q], s.minMember, s.denied, s.permitted)
    ensures a == Expire(g) ==> Next(s, a) == State(s.stages, s.minMember, s.denied - {g}, s.permitted - {g})
  {
  }

  /** Two pods are of one group exactly if they share namespace and a non-empty group label. */
  lemma SameGroupIff(p: Pod, q: Pod)
    ensures GroupOf(p).Some? && GroupOf(p) == GroupOf(q) <==>
            && p.namespace == q.namespace && POD_GROUP_LABEL in p.labels && POD_GROUP_LABEL in q.labels
            && p.labels[POD_GROUP_LABEL] == q.labels[POD_GROUP_LABEL] != ""
  {
  }

  /** Neither a pod that fits nowhere nor a straggler that is rejected disturbs a gang that has been released whole. */
  lemma ReleasedGangIsSpared(s: State, a: Action, g: GroupId)
    requires AllOrNothing(s) && Enabled(s, a) && g in s.minMember && At(s, g, Released) != {}
    requires a.PostFilter? || a.Unreserve?
    ensures Next(s, a).stages == s.stages || GroupOf(a.pod) != Some(g)
    ensures a.PostFilter? && GroupOf(a.pod) == Some(g) ==> Next(s, a) == s
  {
    assert WholeGang(s, g);
    StagesPartition(s, g);
    if GroupOf(a.pod) == Some(g) && a.Unreserve? {
      assert Signal(s.stages, g, Rejected) == s.stages by {
        forall p | p in s.stages ensures Signal(s.stages, g, Rejected)[p] == s.stages[p] {
          assert p !in At(s, g, Waiting);
        }
      }
    }
  }

  // ----- runs -----

  ghost predicate ValidRun(s: State, run: seq<Action>)
    decreases |run|
  {
    run == [] || (Enabled(s, run[0]) && ValidRun(Next(s, run[0]), run[1..]))
  }

  ghost predicate AlwaysAllOrNothing(s: State, run: seq<Action>)
    decreases |run|
  {
    AllOrNothing(s) && (run == [] || AlwaysAllOrNothing(Next(s, run[0]), run[1..]))
  }

  ghost predicate NeverTipped(s: State, run: seq<Action>)
    decreases |run|
  {
    run == [] || (!Tipped(s, run[0]) && NeverTipped(Next(s, run[0]), run[1..]))
  }

  /** Gangs are released whole throughout a run if and only if no Permit of the run is tipped. */
  lemma {:induction false} WholeThroughoutIffNeverTipped(s: State, run: seq<Action>)
    requires AllOrNothing(s) && ValidRun(s, run)
    ensures AlwaysAllOrNothing(s, run) <==> NeverTipped(s, run)
    decreases |run|
  {
    if run != [] {
      StepIsWholeIffNotTipped(s, run[0]);
      if !Tipped(s, run[0]) {
        WholeThroughoutIffNeverTipped(Next(s, run[0]), run[1..]);
      } else if run[1..] == [] {
        assert !AllOrNothing(Next(s, run[0]));
      }
    }
  }

  ghost function FinalState(s: State, run: seq<Action>): State
    decreases |run|
  {
    if run == [] then s else FinalState(Next(s, run[0]), run[1..])
  }

  /** A denied group stays denied until its entry expires, whatever happens in between. */
  lemma {:induction false} DeniedUntilExpiry(s: State, run: seq<Action>, g: GroupId)
    requires g in s.denied && Expire(g) !in run
    ensures g in FinalState(s, run).denied
    decreases |run|
  {
    if run != [] {
      assert run[0] != Expire(g) && forall a | a in run[1..] :: a in run;
      DeniedUntilExpiry(Next(s, run[0]), run[1..], g);
    }
  }

  /** Whenever a pod reaches Permit, no rejected pod of its group still holds a node. */
  ghost predicate RejectionsSettleFirst(s: State, run: seq<Action>)
    decreases |run|
  {
    run == [] ||
    ((run[0].Permit? && GroupOf(run[0].pod).Some? ==> At(s, GroupOf(run[0].pod).value, Rejected) == {})
     && RejectionsSettleFirst(Next(s, run[0]), run[1..]))
  }

  /** So with rejections that take effect at once, gang release is all-or-nothing over every run. */
  lemma {:induction false} SettledRejectionsKeepGangsWhole(s: State, run: seq<Action>)
    requires AllOrNothing(s) && ValidRun(s, run) && RejectionsSettleFirst(s, run)
    ensures AlwaysAllOrNothing(s, run)
    decreases |run|
  {
    if run != [] {
      var a := run[0];
      if a.Permit? && GroupOf(a.pod).Some? {
        StagesPartition(s, GroupOf(a.pod).value);
        assert !Tipped(s, a);
      }
      StepIsWholeIffNotTipped(s, a);
      SettledRejectionsKeepGangsWhole(Next(s, a), run[1..]);
    }
  }

  /** Without that a gang can break: the first of two pods times out, the second is permitted
      before the first has been forgotten, and one pod of a gang of two is released. */
  lemma LingeringRejectionBreaksGang(first: Pod, second: Pod, g: GroupId)
    requires first != second && GroupOf(first) == GroupOf(second) == Some(g)
    ensures var s := State(map[], map[g := 2], {}, {});
            var run := [Permit(first), TimeOut(first), Permit(second)];
            AllOrNothing(s) && ValidRun(s, run) && !AlwaysAllOrNothing(s, run)
  {
    var s := State(map[], map[g := 2], {}, {});
    var run := [Permit(first), TimeOut(first), Permit(second)];
    assert Assigned(s, g) == {};
    var s1 := Next(s, run[0]);
    assert s1.stages == map[first := Waiting];
    var s2 := Next(s1, run[1]);
    assert s2.stages == map[first := Rejected];
    assert Assigned(s2, g) == {first} && At(s2, g, Released) == {} && At(s2, g, Waiting) == {};
    assert Tipped(s2, run[2]);
    StepIsWholeIffNotTipped(s2, run[2]);
    var s3 := Next(s2, run[2]);
    assert run[1..][1..] == [run[2]] && run[1..][1..][1..] == [];
    assert ValidRun(s3, []) && ValidRun(s2, [run[2]]) && ValidRun(s1, run[1..]);
    assert !AlwaysAllOrNothing(s3, []);
    assert !AlwaysAllOrNothing(s2, [run[2]]);
    assert !AlwaysAllOrNothing(s1, run[1..]);
  }
}
