// The status of a pod group and its two writers: the controller's sync, which
// looks at the pods, and the scheduler's PostBind, which counts bindings.
module PodGroupPhase {
  import opened Pods

  /** Fresh is the empty phase of a group that nobody has looked at yet. */
  datatype Phase = Fresh | PgPending | PreScheduling | Scheduling | Scheduled | PgRunning | PgFailed | Finished

  datatype Status = Status(phase: Phase, scheduled: int, running: int, succeeded: int, failed: int, started: bool)

  const NEW := Status(Fresh, 0, 0, 0, 0, false)

  function Rank(p: Phase): nat {
    match p
    case Fresh => 0 case PgPending => 1 case PreScheduling => 2 case Scheduling => 3
    case Scheduled => 4 case PgRunning => 5 case PgFailed => 6 case Finished => 7
  }

  function CountPhase(pods: seq<PodPhase>, phase: PodPhase): nat {
    if pods == [] then 0 else CountPhase(pods[..|pods| - 1], phase) + if pods[|pods| - 1] == phase then 1 else 0
  }

  /** A pending group without any pod crashes the sync if its MinMember is not positive: pods[0] is read. */
  predicate Crashes(st: Status, min: int, pods: seq<PodPhase>) {
    st.phase == PgPending && |pods| == 0 && min <= 0
  }

  function CountedPhase(phase: Phase, min: int, scheduled: int, running: int, succeeded: int, failed: int): Phase {
    var p := if scheduled >= min && phase == Scheduling then Scheduled else phase;
    var q := if succeeded + running >= min && p == Scheduled then PgRunning else p;
    var r := if failed != 0 && failed + running + succeeded >= min then PgFailed else q;
    if succeeded >= min then Finished else r
  }

  function Sync(st: Status, min: int, pods: seq<PodPhase>): Status {
    match st.phase
    case Fresh => st.(phase := PgPending)
    case PgPending => if |pods| >= min && !Crashes(st, min, pods) then st.(phase := PreScheduling) else st
    case _ =>
      var running, succeeded, failed := CountPhase(pods, Running), CountPhase(pods, Succeeded), CountPhase(pods, Failed);
      st.(running := running, succeeded := succeeded, failed := failed,
          phase := CountedPhase(st.phase, min, st.scheduled, running, succeeded, failed))
  }

  function PostBind(st: Status, min: int): Status {
    var n := st.scheduled + 1;
    if n >= min then st.(scheduled := n, phase := Scheduled) else st.(scheduled := n, phase := Scheduling, started := true)
  }

  // ----- the object -----

  class PodGroup {
    const minMember: int
    var phase: Phase
    var scheduled: int
    var running: int
    var succeeded: int
    var failed: int
    var started: bool

    ghost function Value(): Status
      reads this
    {
      Status(phase, scheduled, running, succeeded, failed, started)
    }

    /** ok is false when the handler crashes. */
    method SyncHandler(pods: seq<PodPhase>) returns (ok: bool)
      modifies this
      ensures ok <==> !Crashes(old(Value()), minMember, pods)
      ensures Value() == Sync(old(Value()), minMember, pods)
    {
      match phase {
        case Fresh =>
          phase := PgPending;
        case PgPending =>
          if |pods| >= minMember {
            if |pods| == 0 { return false; }
            phase := PreScheduling;
          }
        case _ =>
          CountAndAdvance(pods);
      }
      return true;
    }

    method CountAndAdvance(pods: seq<PodPhase>)
      requires phase != Fresh && phase != PgPending
      modifies this
      ensures Value() == Sync(old(Value()), minMember, pods)
    {
      var r, s, f := 0, 0, 0;
      assert pods[..|pods|] == pods;
      for i := 0 to |pods|
        invariant r == CountPhase(pods[..i], Running) && s == CountPhase(pods[..i], Succeeded)
        invariant f == CountPhase(pods[..i], Failed)
      {
        assert pods[..i + 1][..i] == pods[..i];
        match pods[i]
        case Running => r := r + 1;
        case Succeeded => s := s + 1;
        case Failed => f := f + 1;
        case _ =>
      }
      failed, succeeded, running := f, s, r;
      if scheduled >= minMember && phase == Scheduling {
        phase := Scheduled;
      }
      if succeeded + running >= minMember && phase == Scheduled {
        phase := PgRunning;
      }
      if failed != 0 && failed + running + succeeded >= minMember {
        phase := PgFailed;
      }
      if succeeded >= minMember {
        phase := Finished;
      }
    }

    method Bind()
      modifies this
      ensures Value() == PostBind(old(Value()), minMember)
    {
      scheduled := scheduled + 1;
      if scheduled >= minMember {
        phase := Scheduled;
      } else {
        phase := Scheduling;
        if !started {
          started := true;
        }
      }
    }
  }

  // ----- single steps -----

  /** A group counts as scheduled or running only if enough of its pods have been bound. */
  ghost predicate EnoughBound(st: Status, min: int) {
    st.phase == Scheduled || st.phase == PgRunning ==> st.scheduled >= min
  }

  lemma {:induction false} CountIsMultiplicity(pods: seq<PodPhase>, phase: PodPhase)
    ensures CountPhase(pods, phase) == multiset(pods)[phase]
    decreases |pods|
  {
    if pods != [] {
      var front, last := pods[..|pods| - 1], pods[|pods| - 1];
      assert pods == front + [last];
      assert multiset(pods) == multiset(front) + multiset{last};
      CountIsMultiplicity(front, phase);
    }
  }

  /** What a sync makes of a group that scheduling has begun on: it counts the pods; enough succeeded ones finish the group;
      failing that, a failed pod among enough pods that are not pending fails it; failing that, a group with enough
      bindings counts as scheduled, and as running once enough pods run or have succeeded. */
  lemma SyncOutcome(st: Status, min: int, pods: seq<PodPhase>)
    requires st.phase != Fresh && st.phase != PgPending
    ensures var s, r, f := multiset(pods)[Succeeded], multiset(pods)[Running], multiset(pods)[Failed];
            var next, fails := Sync(st, min, pods), f > 0 && f + r + s >= min;
            var bound := st.phase == Scheduled || (st.phase == Scheduling && st.scheduled >= min);
            && next == Status(next.phase, st.scheduled, r, s, f, st.started)
            && (next.phase == Finished <==> s >= min || (st.phase == Finished && !fails))
            && (next.phase == PgFailed <==> s < min && (fails || st.phase == PgFailed))
            && (next.phase == PgRunning <==> s < min && !fails && (st.phase == PgRunning || (bound && r + s >= min)))
            && (next.phase == Scheduled <==> s < min && !fails && bound && r + s < min)
            && (next.phase in {PreScheduling, Scheduling, Fresh, PgPending} ==> next.phase == st.phase)
  {
    CountIsMultiplicity(pods, Succeeded);
    CountIsMultiplicity(pods, Running);
    CountIsMultiplicity(pods, Failed);
  }

  /** Before that, a new group becomes pending, and a pending one goes on once it has enough pods, unless it has none at all. */
  lemma SyncOfYoungGroup(st: Status, min: int, pods: seq<PodPhase>)
    requires st.phase == Fresh || st.phase == PgPending
    ensures Sync(st, min, pods) ==
            st.(phase := if st.phase == PgPending && |pods| >= min && pods != [] then PreScheduling else PgPending)
  {
  }

  /** A sync moves a group forward or not at all, save one case: a finished group whose succeeded
      pods have gone missing, while a pod has failed and enough are left, turns into a failed one. */
  lemma SyncLowersRankIff(st: Status, min: int, pods: seq<PodPhase>)
    ensures Rank(Sync(st, min, pods).phase) < Rank(st.phase) <==>
            && st.phase == Finished && CountPhase(pods, Succeeded) < min && CountPhase(pods, Failed) != 0
            && CountPhase(pods, Failed) + CountPhase(pods, Running) + CountPhase(pods, Succeeded) >= min
  {
  }

  /** PostBind moves a group backwards exactly when it comes after the group has started running. */
  lemma PostBindLowersRankIff(st: Status, min: int)
    requires EnoughBound(st, min)
    ensures Rank(PostBind(st, min).phase) < Rank(st.phase) <==>
            st.phase == PgRunning || st.phase == PgFailed || st.phase == Finished
  {
  }

  // ----- runs -----

  datatype Action = SyncWith(pods: seq<PodPhase>) | BindOne

  function Next(st: Status, min: int, a: Action): Status {
    match a
    case SyncWith(pods) => Sync(st, min, pods)
    case BindOne => PostBind(st, min)
  }

  function Run(st: Status, min: int, run: seq<Action>): Status {
    if run == [] then st else Next(Run(st, min, run[..|run| - 1]), min, run[|run| - 1])
  }

  function Bindings(run: seq<Action>): nat {
    if run == [] then 0 else Bindings(run[..|run| - 1]) + if run[|run| - 1].BindOne? then 1 else 0
  }

  /** However syncs and bindings interleave, the status counts the bindings, a scheduled or running group
      has at least MinMember of them, and a group that is being scheduled has some. The start of scheduling is
      recorded by the first binding, unless that is already enough. */
  lemma {:induction false} RunCountsBindings(min: int, run: seq<Action>)
    ensures Run(NEW, min, run).scheduled == Bindings(run)
    ensures EnoughBound(Run(NEW, min, run), min)
    ensures Run(NEW, min, run).started <==> Bindings(run) > 0 && min > 1
    ensures Run(NEW, min, run).phase in {Scheduling, Scheduled, PgRunning} ==> Bindings(run) > 0
    decreases |run|
  {
    if run != [] {
      RunCountsBindings(min, run[..|run| - 1]);
    }
  }

  lemma RunSnoc(st: Status, min: int, run: seq<Action>, a: Action)
    ensures Run(st, min, run + [a]) == Next(Run(st, min, run), min, a)
  {
    assert (run + [a])[..|run|] == run;
  }

  /** Whatever has happened to a new group before, once the binding that completes it is followed by a sync that finds enough
      pods at work and none failed, the group runs; and a sync that then finds enough of them succeeded finishes it. */
  lemma GroupGetsThere(min: int, run: seq<Action>, pods: seq<PodPhase>, done: seq<PodPhase>)
    requires Bindings(run) + 1 >= min
    requires multiset(pods)[Running] + multiset(pods)[Succeeded] >= min > multiset(pods)[Succeeded] && Failed !in pods
    requires multiset(done)[Succeeded] >= min
    ensures Run(NEW, min, run + [BindOne]).phase == Scheduled
    ensures Run(NEW, min, run + [BindOne] + [SyncWith(pods)]).phase == PgRunning
    ensures Run(NEW, min, run + [BindOne] + [SyncWith(pods)] + [SyncWith(done)]).phase == Finished
  {
    RunCountsBindings(min, run);
    RunSnoc(NEW, min, run, BindOne);
    RunSnoc(NEW, min, run + [BindOne], SyncWith(pods));
    RunSnoc(NEW, min, run + [BindOne] + [SyncWith(pods)], SyncWith(done));
    SyncOutcome(Run(NEW, min, run + [BindOne]), min, pods);
    SyncOutcome(Run(NEW, min, run + [BindOne] + [SyncWith(pods)]), min, done);
    assert Failed !in multiset(pods);
  }

  /** A group of one runs, and a second binding puts it back to Scheduled. */
  lemma RunningGroupFallsBack()
    ensures var run := [BindOne, SyncWith([Running]), BindOne];
            Run(NEW, 1, run[..2]).phase == PgRunning && Run(NEW, 1, run).phase == Scheduled
  {
    var run := [BindOne, SyncWith([Running]), BindOne];
    assert run[..2][..1] == run[..1] && run[..1][..0] == [];
    assert Run(NEW, 1, run[..1]) == Status(Scheduled, 1, 0, 0, 0, false);
    CountOne(Running);
    assert Run(NEW, 1, run[..2]) == Status(PgRunning, 1, 1, 0, 0, false);
  }

  /** A group of one finishes, and a failed pod in the place of the succeeded one turns it into a failed group. */
  lemma FinishedGroupFails()
    ensures var run := [BindOne, SyncWith([Succeeded]), SyncWith([Failed])];
            Run(NEW, 1, run[..2]).phase == Finished && Run(NEW, 1, run).phase == PgFailed
  {
    var run := [BindOne, SyncWith([Succeeded]), SyncWith([Failed])];
    assert run[..2][..1] == run[..1] && run[..1][..0] == [];
    assert Run(NEW, 1, run[..1]) == Status(Scheduled, 1, 0, 0, 0, false);
    CountOne(Succeeded);
    CountOne(Failed);
    assert Run(NEW, 1, run[..2]) == Status(Finished, 1, 0, 1, 0, false);
  }

  lemma CountOne(phase: PodPhase)
    ensures forall other :: CountPhase([phase], other) == if other == phase then 1 else 0
  {
    assert [phase][..0] == [];
  }

  /** The controller queues no terminal group, and a group is bound to only before it runs. */
  ghost predicate Orderly(st: Status, min: int, run: seq<Action>)
    decreases |run|
  {
    run == [] ||
    ((match run[0]
      case SyncWith(_) => st.phase != Finished && st.phase != PgFailed
      case BindOne => Rank(st.phase) < Rank(PgRunning))
     && Orderly(Next(st, min, run[0]), min, run[1..]))
  }

  ghost predicate NeverFallsBack(st: Status, min: int, run: seq<Action>)
    decreases |run|
  {
    run == [] ||
    (Rank(st.phase) <= Rank(Next(st, min, run[0]).phase) && NeverFallsBack(Next(st, min, run[0]), min, run[1..]))
  }

  /** Under that discipline the phase only ever advances. */
  lemma {:induction false} OrderlyRunsAdvance(st: Status, min: int, run: seq<Action>)
    requires EnoughBound(st, min) && Orderly(st, min, run)
    ensures NeverFallsBack(st, min, run)
    decreases |run|
  {
    if run != [] {
      match run[0] {
        case SyncWith(pods) => SyncLowersRankIff(st, min, pods);
        case BindOne => PostBindLowersRankIff(st, min);
      }
      OrderlyRunsAdvance(Next(st, min, run[0]), min, run[1..]);
    }
  }

  /** With the pods unchanged, three syncs reach a fixpoint, whatever the status to begin with... */
  lemma ThreeSyncsSettle(st: Status, min: int, pods: seq<PodPhase>)
    ensures var third := Sync(Sync(Sync(st, min, pods), min, pods), min, pods);
            Sync(third, min, pods) == third
  {
    var one := Sync(st, min, pods);
    var two := Sync(one, min, pods);
    assert st.phase == Fresh ==> one.phase == PgPending;
    assert st.phase == PgPending ==> one.phase == PgPending || one.phase == PreScheduling;
    if st.phase != Fresh && st.phase != PgPending {
      CountedPhaseIsIdempotent(st.phase, min, st.scheduled, one.running, one.succeeded, one.failed);
    } else if two.phase != PgPending {
      CountedPhaseIsIdempotent(PreScheduling, min, st.scheduled, CountPhase(pods, Running), CountPhase(pods, Succeeded), CountPhase(pods, Failed));
    }
  }

  lemma CountedPhaseIsIdempotent(phase: Phase, min: int, scheduled: int, running: int, succeeded: int, failed: int)
    ensures var p := CountedPhase(phase, min, scheduled, running, succeeded, failed);
            CountedPhase(p, min, scheduled, running, succeeded, failed) == p
  {
  }

  /** ...and two do not suffice. */
  lemma TwoSyncsMayNotSettle(min: int, pods: seq<PodPhase>)
    requires |pods| >= min >= 1 && CountPhase(pods, Succeeded) >= min
    ensures var second := Sync(Sync(NEW, min, pods), min, pods);
            Sync(second, min, pods) != second
  {
  }
}
