// TargetLoadPacking.Score: predict the CPU load of a node with the pod on it,
// and score how close that comes to the target. Floats are reals here.
module TargetLoadPacking {
  import opened Wrappers
  import opened Sums
  import opened LoadCache
  import opened PodAssignEventHandler
  import opened Slices

  /** target is a percentage. */
  datatype Config = Config(target: int, requestsMilliCores: int, requestsMultiplier: real)

  datatype MetricType = Cpu | OtherType
  datatype Operator = Average | Latest | OtherOperator
  datatype Metric = Metric(type_: MetricType, operator_: Operator, value: real)

  /** math.Round: to the nearest integer, halves away from zero. */
  function Round(x: real): int {
    if x >= 0.0 then (x + 0.5).Floor else -((0.5 - x).Floor)
  }

  function PredictUtilisation(cfg: Config, c: Container): int {
    if c.limit.Some? then c.limit.value
    else if c.request.Some? then Round(c.request.value as real * cfg.requestsMultiplier)
    else cfg.requestsMilliCores
  }

  ghost function Predicted(cfg: Config): Container -> int {
    (c: Container) => PredictUtilisation(cfg, c)
  }

  ghost function PodUsage(cfg: Config, p: Pod): int {
    SeqSum(p.containers, Predicted(cfg)) + p.overhead
  }

  function Unix(t: int): int {
    t / SECOND
  }

  /** Metrics that end at the given second may not show this pod's load yet. */
  predicate Unreported(t: int, end: int) {
    Unix(t) > end || (Unix(t) <= end && end - Unix(t) < REPORTING_INTERVAL)
  }

  ghost function MissingOf(cfg: Config, end: int): PodInfo -> int {
    (e: PodInfo) => if e.PodInfo? && Unreported(e.timestamp, end) then PodUsage(cfg, e.pod) else 0
  }

  ghost function Missing(cfg: Config, list: seq<PodInfo>, end: int): int {
    SeqSum(list, MissingOf(cfg, end))
  }

  /** The last CPU average or latest value that the metrics give. */
  function CpuUtilisation(metrics: seq<Metric>): Option<real> {
    if metrics == [] then None
    else
      var m := metrics[|metrics| - 1];
      if m.type_.Cpu? && (m.operator_.Average? || m.operator_.Latest?) then Some(m.value)
      else CpuUtilisation(metrics[..|metrics| - 1])
  }

  function PredictedPercent(capacity: int, utilisation: real, usage: int): real {
    if capacity == 0 then 0.0
    else 100.0 * (utilisation / 100.0 * capacity as real + usage as real) / capacity as real
  }

  function Scaled(factor: real, x: real, divisor: real): real
    requires divisor != 0.0
  {
    factor * x / divisor
  }

  /** The piecewise score of a predicted load in percent. */
  function LoadScore(target: int, p: real): int
    requires 0 < target <= 100
  {
    var t := target as real;
    if p > t then
      if p > 100.0 then 0 else Round(Scaled(50.0, 100.0 - p, 100.0 - t))
    else Round(Scaled(100.0 - t, p, t) + t)
  }

  /** metrics is None for a node without any; capacity is in millicores. */
  ghost function NodeScore(cfg: Config, p: Pod, capacity: int, metrics: Option<seq<Metric>>, end: int, list: seq<PodInfo>): int
    requires 0 < cfg.target <= 100
  {
    if metrics.None? || CpuUtilisation(metrics.value).None? then 0
    else
      LoadScore(cfg.target,
                PredictedPercent(capacity, CpuUtilisation(metrics.value).value, PodUsage(cfg, p) + Missing(cfg, list, end)))
  }

  // ----- the method -----

  method UsageOf(cfg: Config, p: Pod) returns (usage: int)
    ensures usage == PodUsage(cfg, p)
  {
    usage := 0;
    assert p.containers[..|p.containers|] == p.containers;
    for i := 0 to |p.containers|
      invariant usage == SeqSum(p.containers[..i], Predicted(cfg))
    {
      assert p.containers[..i + 1][..i] == p.containers[..i];
      usage := usage + PredictUtilisation(cfg, p.containers[i]);
    }
    usage := usage + p.overhead;
  }

  method MissingUsage(cfg: Config, s: Slice<PodInfo>, end: int) returns (missing: int)
    requires InBounds(s)
    ensures missing == Missing(cfg, Contents(s), end)
  {
    missing := 0;
    ghost var list := Contents(s);
    assert list[..s.len] == list;
    for i := 0 to s.len
      invariant missing == SeqSum(list[..i], MissingOf(cfg, end))
    {
      assert list[..i + 1][..i] == list[..i];
      var e := s.data[i];
      if e.PodInfo? && Unreported(e.timestamp, end) {
        var usage := UsageOf(cfg, e.pod);
        missing := missing + usage;
      }
    }
  }

  method Score(cfg: Config, p: Pod, node: string, capacity: int, metrics: Option<seq<Metric>>, end: int, handler: Handler) returns (score: int)
    requires 0 < cfg.target <= 100 && handler.Valid()
    ensures score == NodeScore(cfg, p, capacity, metrics, end, if node in handler.lists then handler.lists[node] else [])
  {
    if metrics.None? { return 0; }
    var usage := UsageOf(cfg, p);
    var utilisation, found := 0.0, false;
    var ms := metrics.value;
    assert ms[..|ms|] == ms;
    for i := 0 to |ms|
      invariant CpuUtilisation(ms[..i]) == if found then Some(utilisation) else None
    {
      assert ms[..i + 1][..i] == ms[..i];
      if ms[i].type_ == Cpu {
        if ms[i].operator_ == Average || ms[i].operator_ == Latest {
          utilisation, found := ms[i].value, true;
        }
      }
    }
    if !found { return 0; }
    var missing := 0;
    if node in handler.cache {
      missing := MissingUsage(cfg, handler.cache[node], end);
    }
    var predicted := PredictedPercent(capacity, utilisation, usage + missing);
    score := LoadScore(cfg.target, predicted);
  }

  // ----- the prediction -----

  lemma RoundIsNearest(x: real)
    ensures -0.5 <= Round(x) as real - x <= 0.5
    ensures x >= 0.0 ==> Round(x) as real - x != -0.5
    ensures x < 0.0 ==> Round(x) as real - x != 0.5
  {
  }

  /** What a container is expected to use: its limit, or else its request scaled up and rounded, or else the default. */
  lemma ContainerIsExpectedToUse(cfg: Config, c: Container)
    ensures var use := PredictUtilisation(cfg, c);
            && (c.limit.Some? ==> use == c.limit.value)
            && (c.limit.None? && c.request.Some? ==>
                  -0.5 <= use as real - c.request.value as real * cfg.requestsMultiplier <= 0.5)
            && (c.limit.None? && c.request.None? ==> use == cfg.requestsMilliCores)
  {
    if c.limit.None? && c.request.Some? {
      RoundIsNearest(c.request.value as real * cfg.requestsMultiplier);
    }
  }

  /** The utilisation that counts is that of the last CPU metric which is an average or a latest value. */
  lemma {:induction false} CpuUtilisationIsLast(metrics: seq<Metric>, i: nat)
    requires i < |metrics| && metrics[i].type_ == Cpu && metrics[i].operator_ in {Average, Latest}
    requires forall k | i < k < |metrics| :: metrics[k].type_ != Cpu || metrics[k].operator_ == OtherOperator
    ensures CpuUtilisation(metrics) == Some(metrics[i].value)
    decreases |metrics|
  {
    if i < |metrics| - 1 {
      CpuUtilisationIsLast(metrics[..|metrics| - 1], i);
    }
  }

  lemma {:induction false} CpuUtilisationIsMissing(metrics: seq<Metric>)
    requires forall k | 0 <= k < |metrics| :: metrics[k].type_ != Cpu || metrics[k].operator_ == OtherOperator
    ensures CpuUtilisation(metrics).None?
    decreases |metrics|
  {
    if metrics != [] {
      CpuUtilisationIsMissing(metrics[..|metrics| - 1]);
    }
  }

  /** Everything that the node does now, what the pod will use, and what the pods will use that came too late for the metrics. */
  ghost function ExpectedUse(cfg: Config, p: Pod, list: seq<PodInfo>, end: int): int {
    SeqSum(p.containers, Predicted(cfg)) + p.overhead + SeqSum(list, LateUse(cfg, end))
  }

  ghost function LateUse(cfg: Config, end: int): PodInfo -> int {
    (e: PodInfo) =>
      if e.PodInfo? && e.timestamp / 1_000_000_000 > end - 60 then SeqSum(e.pod.containers, Predicted(cfg)) + e.pod.overhead else 0
  }

  lemma {:induction false} MissingIsLateUse(cfg: Config, list: seq<PodInfo>, end: int)
    ensures Missing(cfg, list, end) == SeqSum(list, LateUse(cfg, end))
    decreases |list|
  {
    if list != [] {
      MissingIsLateUse(cfg, list[..|list| - 1], end);
    }
  }

  lemma PercentOfCapacity(capacity: int, utilisation: real, usage: int)
    requires capacity != 0
    ensures PredictedPercent(capacity, utilisation, usage) * capacity as real == utilisation * capacity as real + 100.0 * usage as real
  {
    var c, x := capacity as real, utilisation / 100.0 * capacity as real + usage as real;
    assert 100.0 * x / c * c == 100.0 * x;
    assert 100.0 * x == utilisation * c + 100.0 * usage as real;
  }

  lemma SamePercent(p: real, q: real, capacity: real)
    requires capacity != 0.0 && p * capacity == q * capacity
    ensures p == q
  {
    assert (p - q) * capacity == 0.0;
  }

  /** The score of a node with CPU metrics is that of the load (in percent) which its present load, the pod and
      the pods that the metrics have missed add up to. */
  lemma ScoreIsOfTheWholeLoad(cfg: Config, p: Pod, capacity: int, metrics: seq<Metric>, end: int, list: seq<PodInfo>, load: real)
    requires 0 < cfg.target <= 100 && capacity != 0 && CpuUtilisation(metrics).Some?
    requires load * capacity as real ==
             CpuUtilisation(metrics).value * capacity as real + 100.0 * ExpectedUse(cfg, p, list, end) as real
    ensures NodeScore(cfg, p, capacity, Some(metrics), end, list) == LoadScore(cfg.target, load)
  {
    var utilisation, usage := CpuUtilisation(metrics).value, ExpectedUse(cfg, p, list, end);
    MissingIsLateUse(cfg, list, end);
    PercentOfCapacity(capacity, utilisation, usage);
    SamePercent(PredictedPercent(capacity, utilisation, usage), load, capacity as real);
  }

  /** A node without metrics, or without one on its CPU, gets the least score. */
  lemma UnmeasuredScoresNothing(cfg: Config, p: Pod, capacity: int, metrics: Option<seq<Metric>>, end: int, list: seq<PodInfo>)
    requires 0 < cfg.target <= 100
    requires metrics.Some? ==>
               forall m | m in metrics.value :: m.type_ != Cpu || m.operator_ == OtherOperator
    ensures NodeScore(cfg, p, capacity, metrics, end, list) == 0
  {
    if metrics.Some? {
      CpuUtilisationIsMissing(metrics.value);
    }
  }

  /** A node that reports no capacity counts as idle. */
  lemma NoCapacityScoresTarget(cfg: Config, p: Pod, metrics: seq<Metric>, end: int, list: seq<PodInfo>)
    requires 0 < cfg.target <= 100 && CpuUtilisation(metrics).Some?
    ensures NodeScore(cfg, p, 0, Some(metrics), end, list) == cfg.target
  {
    assert Scaled(100.0 - cfg.target as real, 0.0, cfg.target as real) == 0.0;
  }

  lemma CancelCapacity(a: real, b: real, c: real)
    requires c > 0.0 && a * c > b * c
    ensures a > b
  {
    assert (a - b) * c > 0.0;
  }

  lemma MoreUseMoreLoad(capacity: int, utilisation: real, less: int, more: int)
    requires capacity > 0 && less <= more
    ensures PredictedPercent(capacity, utilisation, less) <= PredictedPercent(capacity, utilisation, more)
  {
    var p, q, c := PredictedPercent(capacity, utilisation, less), PredictedPercent(capacity, utilisation, more), capacity as real;
    PercentOfCapacity(capacity, utilisation, less);
    PercentOfCapacity(capacity, utilisation, more);
    assert (q - p) * c == 100.0 * (more - less) as real;
    if more != less {
      CancelCapacity(q, p, c);
    }
  }

  /** On a node that the smaller pod already takes beyond the target, a pod that uses more never scores higher. */
  lemma MoreUseNeverScoresHigher(cfg: Config, p: Pod, q: Pod, capacity: int, metrics: seq<Metric>, end: int, list: seq<PodInfo>)
    requires 0 < cfg.target <= 100 && capacity > 0 && CpuUtilisation(metrics).Some?
    requires ExpectedUse(cfg, p, list, end) <= ExpectedUse(cfg, q, list, end)
    requires CpuUtilisation(metrics).value * capacity as real + 100.0 * ExpectedUse(cfg, p, list, end) as real >
             cfg.target as real * capacity as real
    ensures 0 <= NodeScore(cfg, q, capacity, Some(metrics), end, list) <= NodeScore(cfg, p, capacity, Some(metrics), end, list) <= 50
  {
    var utilisation := CpuUtilisation(metrics).value;
    var less, more := ExpectedUse(cfg, p, list, end), ExpectedUse(cfg, q, list, end);
    MissingIsLateUse(cfg, list, end);
    PercentOfCapacity(capacity, utilisation, less);
    MoreUseMoreLoad(capacity, utilisation, less, more);
    var load := PredictedPercent(capacity, utilisation, less);
    CancelCapacity(load, cfg.target as real, capacity as real);
    ScoreFallsBeyondTarget(cfg.target, load, PredictedPercent(capacity, utilisation, more));
  }

  // ----- the shape of the score -----

  lemma ScaledTimes(factor: real, x: real, divisor: real)
    requires divisor != 0.0
    ensures Scaled(factor, x, divisor) * divisor == factor * x
  {
  }

  lemma SamePoint(factor: real, x: real, divisor: real, y: real)
    requires divisor != 0.0 && y * divisor == factor * x
    ensures y == Scaled(factor, x, divisor)
  {
    ScaledTimes(factor, x, divisor);
    SamePercent(y, Scaled(factor, x, divisor), divisor);
  }

  /** The score is the nearest integer to the point y above load p on one of two straight lines: the one that climbs from
      target at load 0 to 100 at the target, or the one that falls from 50 just beyond the target to 0 at full load. */
  lemma ScoreIsOnTheLine(target: int, p: real, y: real)
    requires 0 < target <= 100
    requires var t := target as real;
             if p <= t then (y - t) * t == (100.0 - t) * p else p <= 100.0 && y * (100.0 - t) == 50.0 * (100.0 - p)
    ensures -0.5 <= LoadScore(target, p) as real - y <= 0.5
  {
    var t := target as real;
    RoundIsNearest(y);
    if p <= t {
      SamePoint(100.0 - t, p, t, y - t);
    } else {
      SamePoint(50.0, 100.0 - p, 100.0 - t, y);
    }
  }

  lemma RoundIsMonotone(x: real, y: real)
    requires x <= y
    ensures Round(x) <= Round(y)
  {
  }

  lemma RoundBetween(lo: int, x: real, hi: int)
    requires lo as real <= x <= hi as real
    ensures lo <= Round(x) <= hi
  {
    RoundIsMonotone(lo as real, x);
    RoundIsMonotone(x, hi as real);
  }

  lemma ScaleIsMonotone(factor: real, a: real, b: real, divisor: real)
    requires 0.0 <= a <= b && factor >= 0.0 && divisor > 0.0
    ensures 0.0 <= Scaled(factor, a, divisor) <= Scaled(factor, b, divisor)
  {
    assert 0.0 <= factor * a <= factor * b;
  }

  lemma ScaleCancels(factor: real, divisor: real)
    requires divisor != 0.0
    ensures Scaled(factor, divisor, divisor) == factor
  {
  }

  /** Up to the target the score climbs from target to 100, which it reaches exactly at the target... */
  lemma ScoreClimbsToTarget(target: int, p: real, q: real)
    requires 0 < target <= 100 && 0.0 <= p <= q <= target as real
    ensures target <= LoadScore(target, p) <= LoadScore(target, q) <= 100
    ensures LoadScore(target, target as real) == 100
  {
    var t := target as real;
    ScaleIsMonotone(100.0 - t, p, q, t);
    ScaleIsMonotone(100.0 - t, q, t, t);
    ScaleCancels(100.0 - t, t);
    var x, y := Scaled(100.0 - t, p, t) + t, Scaled(100.0 - t, q, t) + t;
    RoundIsMonotone(x, y);
    RoundBetween(target, x, 100);
    RoundBetween(target, y, 100);
  }

  /** ...and beyond it the score drops to at most 50 and falls to 0. */
  lemma ScoreFallsBeyondTarget(target: int, p: real, q: real)
    requires 0 < target <= 100 && target as real < p <= q
    ensures 0 <= LoadScore(target, q) <= LoadScore(target, p) <= 50
    ensures p > 100.0 ==> LoadScore(target, p) == 0
  {
    var t := target as real;
    if p <= 100.0 {
      ScaleCancels(50.0, 100.0 - t);
      ScaleIsMonotone(50.0, 100.0 - p, 100.0 - t, 100.0 - t);
      RoundBetween(0, Scaled(50.0, 100.0 - p, 100.0 - t), 50);
      if q <= 100.0 {
        ScaleIsMonotone(50.0, 100.0 - q, 100.0 - p, 100.0 - t);
        RoundIsMonotone(Scaled(50.0, 100.0 - q, 100.0 - t), Scaled(50.0, 100.0 - p, 100.0 - t));
        RoundBetween(0, Scaled(50.0, 100.0 - q, 100.0 - t), 50);
      }
    }
  }

  // ----- the cache is allowed to forget -----

  lemma UnreportedIsRecent(t: int, end: int)
    ensures Unreported(t, end) <==> Unix(t) > end - REPORTING_INTERVAL
  {
  }

  /** Once an entry is no longer fresh, metrics that end no earlier than now show its pod. */
  lemma StaleIsReported(e: PodInfo, now: int, end: int)
    requires e.PodInfo? && !Fresh(e, now) && Unix(now) <= end
    ensures !Unreported(e.timestamp, end)
  {
    assert Unix(e.timestamp + REPORTING_INTERVAL * SECOND) == Unix(e.timestamp) + REPORTING_INTERVAL;
    assert Unix(e.timestamp + REPORTING_INTERVAL * SECOND) <= Unix(now);
  }

  lemma {:induction false} FreshOnesCarryMissing(cfg: Config, list: seq<PodInfo>, now: int, end: int)
    requires Sorted(list) && Unix(now) <= end
    ensures Missing(cfg, FreshOnes(list, now), end) == Missing(cfg, list, end)
    decreases |list|
  {
    if list != [] {
      var head, tail := list[0], list[1..];
      assert list == [head] + tail;
      assert Sorted(tail) by { assert forall e | e in tail :: e in list; }
      assert head in list;
      FreshOnesCarryMissing(cfg, tail, now, end);
      SeqSumConcat([head], tail, MissingOf(cfg, end));
      SeqSumConcat([head], FreshOnes(tail, now), MissingOf(cfg, end));
      if !Fresh(head, now) {
        StaleIsReported(head, now, end);
        assert FreshOnes(list, now) == FreshOnes(tail, now);
        assert SeqSum([head], MissingOf(cfg, end)) == 0;
      }
    }
  }

  /** The cached list matters only through the utilisation that it says is missing. */
  lemma ScoreSeesOnlyMissing(cfg: Config, p: Pod, capacity: int, metrics: Option<seq<Metric>>, end: int,
                             list: seq<PodInfo>, other: seq<PodInfo>)
    requires 0 < cfg.target <= 100 && Missing(cfg, list, end) == Missing(cfg, other, end)
    ensures NodeScore(cfg, p, capacity, metrics, end, list) == NodeScore(cfg, p, capacity, metrics, end, other)
  {
  }

  /** After any run of the handler, a cleanup does not change the score of any node, provided
      the metrics end no earlier than the second in which the cleanup visits the node. */
  lemma CleanupIsInvisible(cfg: Config, p: Pod, capacity: int, metrics: Option<seq<Metric>>, end: int,
                           run: seq<Event>, clock: string -> int, node: string)
    requires 0 < cfg.target <= 100 && Monotone(run) && node in Run(map[], run)
    requires Unix(clock(node)) <= end
    ensures var before, after := Run(map[], run), Next(Run(map[], run), Cleanup(clock));
            NodeScore(cfg, p, capacity, metrics, end, after[node]) == NodeScore(cfg, p, capacity, metrics, end, before[node])
  {
    RunKeepsSorted(run);
    CleanupAlongRun(run, clock, node);
    var before, after := Run(map[], run)[node], Next(Run(map[], run), Cleanup(clock))[node];
    FreshOnesCarryMissing(cfg, before, clock(node), end);
    ScoreSeesOnlyMissing(cfg, p, capacity, metrics, end, after, before);
  }
}
