// NodeResourcesAllocatable: weighted raw scores and their normalisation, in
// 64-bit arithmetic that wraps around.
module Allocatable {
  import opened Wrappers
  import opened Sums

  const MIN_INT64 := -0x8000_0000_0000_0000
  const MAX_INT64 := 0x7FFF_FFFF_FFFF_FFFF

  type Int64 = x: int | MIN_INT64 <= x <= MAX_INT64

  function Wrap(x: int): (r: Int64)
    ensures MIN_INT64 <= x <= MAX_INT64 ==> r == x
  {
    (x + 0x8000_0000_0000_0000) % 0x1_0000_0000_0000_0000 - 0x8000_0000_0000_0000
  }

  /** Go's integer division truncates towards zero. */
  function TruncDiv(a: int, b: int): int
    requires b != 0
  {
    if (a >= 0) == (b > 0) then Abs(a) / Abs(b) else -(Abs(a) / Abs(b))
  }

  function Abs(x: int): nat {
    if x < 0 then -x else x
  }

  // ----- division -----

  lemma MulMonotone(x: int, y: int, d: int)
    requires x <= y && d >= 0
    ensures x * d <= y * d
  {
    assert (y - x) * d >= 0;
    assert y * d == x * d + (y - x) * d;
  }

  lemma MulCancel(x: int, y: int, d: int)
    requires d > 0 && x * d < y * d
    ensures x < y
  {
    if y <= x {
      MulMonotone(y, x, d);
    }
  }

  /** a / d is the one q with q * d <= a < (q + 1) * d. */
  lemma DivIs(a: int, d: int)
    requires d > 0
    ensures (a / d) * d <= a < (a / d + 1) * d
  {
    assert a == d * (a / d) + a % d;
    assert (a / d + 1) * d == (a / d) * d + d;
  }

  lemma DivMonotone(a: int, b: int, d: int)
    requires a <= b && d > 0
    ensures a / d <= b / d
  {
    DivIs(a, d);
    DivIs(b, d);
    MulCancel(a / d, b / d + 1, d);
  }

  lemma DivOfMultiple(q: int, d: int)
    requires d > 0
    ensures (q * d) / d == q
  {
    DivIs(q * d, d);
    assert (q + 1) * d == q * d + d;
    MulCancel(q * d / d, q + 1, d);
    MulCancel(q, q * d / d + 1, d);
  }

  lemma DivShrinks(a: nat, d: int)
    requires d > 0
    ensures 0 <= a / d <= a
  {
    DivIs(a, d);
    MulMonotone(1, d, a);
    DivOfMultiple(a, d);
    DivMonotone(a, a * d, d);
    DivMonotone(0, a, d);
  }

  // ----- raw scores -----

  datatype Mode = Least | Most

  function ScoreOf(capacity: Int64, mode: Mode): Int64 {
    match mode
    case Least => Wrap(-1 * capacity)
    case Most => capacity
  }

  /** A resource that the node does not report has capacity 0. */
  function CapacityOf(capacities: map<string, Int64>, r: string): Int64 {
    if r in capacities then capacities[r] else 0
  }

  ghost function Weighted(weights: map<string, Int64>, capacities: map<string, Int64>, mode: Mode): string -> int {
    r => if r in weights then ScoreOf(CapacityOf(capacities, r), mode) * weights[r] else 0
  }

  ghost function WeightOf(weights: map<string, Int64>): string -> int {
    r => if r in weights then weights[r] else 0
  }

  lemma WrapAdd(a: int, b: int)
    ensures Wrap(Wrap(a) + Wrap(b)) == Wrap(a + b)
  {
  }

  /** None is the division by a weight sum of zero. */
  ghost function RawScore(weights: map<string, Int64>, capacities: map<string, Int64>, mode: Mode): Option<Int64> {
    var total, weight := Wrap(Sum(weights.Keys, Weighted(weights, capacities, mode))), Wrap(Sum(weights.Keys, WeightOf(weights)));
    if weight == 0 then None else Some(Wrap(TruncDiv(total, weight)))
  }

  /** sum += Int64 term, where the term itself may already have wrapped. */
  method AddTerm(sum: Int64, term: int, ghost done: set<string>, ghost f: string -> int, ghost r: string) returns (sum': Int64)
    requires sum == Wrap(Sum(done, f)) && r !in done && f(r) == term
    ensures sum' == Wrap(Sum(done + {r}, f))
  {
    SumInsert(done, f, r);
    WrapAdd(Sum(done, f), term);
    sum' := Wrap(sum + Wrap(term));
  }

  /** Wrapping at every step of the loop is the same as wrapping once, whatever the order of the map. */
  method ResourceScorer(weights: map<string, Int64>, capacities: map<string, Int64>, mode: Mode) returns (score: Option<Int64>)
    ensures score == RawScore(weights, capacities, mode)
  {
    var nodeScore: Int64, weightSum: Int64 := 0, 0;
    ghost var done := {};
    var todo := weights.Keys;
    while todo != {}
      invariant todo <= weights.Keys && done == weights.Keys - todo
      invariant nodeScore == Wrap(Sum(done, Weighted(weights, capacities, mode)))
      invariant weightSum == Wrap(Sum(done, WeightOf(weights)))
      decreases todo
    {
      var r :| r in todo;
      var resourceScore := ScoreOf(CapacityOf(capacities, r), mode);
      nodeScore := AddTerm(nodeScore, resourceScore as int * weights[r] as int, done, Weighted(weights, capacities, mode), r);
      weightSum := AddTerm(weightSum, weights[r], done, WeightOf(weights), r);
      todo, done := todo - {r}, done + {r};
    }
    assert done == weights.Keys;
    score := if weightSum == 0 then None else Some(Wrap(TruncDiv(nodeScore, weightSum)));
  }

  lemma {:induction false} SumOfNegated<T>(s: set<T>, f: T -> int, g: T -> int)
    requires forall x | x in s :: g(x) == -f(x)
    ensures Sum(s, g) == -Sum(s, f)
    decreases |s|
  {
    if s != {} {
      var x :| x in s;
      SumRemove(s, f, x);
      SumRemove(s, g, x);
      SumOfNegated(s - {x}, f, g);
    }
  }

  lemma TruncDivNegates(a: int, b: int)
    requires b != 0
    ensures TruncDiv(-a, b) == -TruncDiv(a, b)
  {
    assert Abs(-a) == Abs(a);
    if a == 0 {
      DivOfMultiple(0, Abs(b));
    }
  }

  lemma TruncDivShrinks(a: int, b: int)
    requires b != 0
    ensures Abs(TruncDiv(a, b)) <= Abs(a)
  {
    DivShrinks(Abs(a), Abs(b));
  }

  lemma WeightedMirrors(weights: map<string, Int64>, capacities: map<string, Int64>)
    requires forall r | r in capacities :: capacities[r] >= 0
    ensures Sum(weights.Keys, Weighted(weights, capacities, Least)) == -Sum(weights.Keys, Weighted(weights, capacities, Most))
  {
    forall r | r in weights.Keys
      ensures Weighted(weights, capacities, Least)(r) == -Weighted(weights, capacities, Most)(r)
    {
      var c, w := CapacityOf(capacities, r), weights[r];
      assert ScoreOf(c, Least) as int == -(c as int);
      assert (-(c as int)) * w as int == -(c as int * w as int);
    }
    SumOfNegated(weights.Keys, Weighted(weights, capacities, Most), Weighted(weights, capacities, Least));
  }

  /** Unless the weighted sum overflows, the raw scores of the two modes are each other's negation. */
  lemma ModesMirror(weights: map<string, Int64>, capacities: map<string, Int64>)
    requires forall r | r in capacities :: capacities[r] >= 0
    requires Abs(Sum(weights.Keys, Weighted(weights, capacities, Most))) <= MAX_INT64
    requires RawScore(weights, capacities, Most).Some?
    ensures RawScore(weights, capacities, Least) == Some(-(RawScore(weights, capacities, Most).value as int))
  {
    var total, weight := Sum(weights.Keys, Weighted(weights, capacities, Most)), Wrap(Sum(weights.Keys, WeightOf(weights)));
    WeightedMirrors(weights, capacities);
    TruncDivNegates(total, weight);
    TruncDivShrinks(total, weight);
  }

  lemma TruncDivOfPositive(a: int, b: int)
    requires b > 0
    ensures TruncDiv(a, b) == if a >= 0 then a / b else -(-a / b)
  {
  }

  lemma TruncDivMonotone(a: int, b: int, d: int)
    requires a <= b && d > 0
    ensures TruncDiv(a, d) <= TruncDiv(b, d)
  {
    TruncDivOfPositive(a, d);
    TruncDivOfPositive(b, d);
    if a < 0 && b < 0 {
      DivMonotone(-b, -a, d);
    } else if a < 0 {
      DivMonotone(0, -a, d);
      DivMonotone(0, b, d);
    } else {
      DivMonotone(a, b, d);
    }
  }

  /** With the given weights neither the weighted capacities nor the weights themselves overflow. */
  ghost predicate InRange(weights: map<string, Int64>, capacities: map<string, Int64>) {
    && (forall r | r in capacities :: capacities[r] >= 0) && (forall r | r in weights :: weights[r] >= 0)
    && 0 < Sum(weights.Keys, WeightOf(weights)) <= MAX_INT64
    && Abs(Sum(weights.Keys, Weighted(weights, capacities, Most))) <= MAX_INT64
  }

  /** Scoring fails only when the weights cancel out. */
  lemma ScoringFailsIff(weights: map<string, Int64>, capacities: map<string, Int64>, mode: Mode)
    requires Abs(Sum(weights.Keys, WeightOf(weights))) <= MAX_INT64
    ensures RawScore(weights, capacities, mode).None? <==> Sum(weights.Keys, WeightOf(weights)) == 0
  {
  }

  lemma MostIsMean(weights: map<string, Int64>, capacities: map<string, Int64>)
    requires InRange(weights, capacities)
    ensures RawScore(weights, capacities, Most).Some?
    ensures RawScore(weights, capacities, Most).value as int ==
            TruncDiv(Sum(weights.Keys, Weighted(weights, capacities, Most)), Sum(weights.Keys, WeightOf(weights)))
  {
    TruncDivShrinks(Sum(weights.Keys, Weighted(weights, capacities, Most)), Sum(weights.Keys, WeightOf(weights)));
  }

  lemma MoreCapacityMoreWeight(weights: map<string, Int64>, fewer: map<string, Int64>, more: map<string, Int64>)
    requires forall r | r in weights :: weights[r] >= 0 && CapacityOf(fewer, r) <= CapacityOf(more, r)
    ensures Sum(weights.Keys, Weighted(weights, fewer, Most)) <= Sum(weights.Keys, Weighted(weights, more, Most))
  {
    forall r | r in weights.Keys ensures Weighted(weights, fewer, Most)(r) <= Weighted(weights, more, Most)(r) {
      MulMonotone(CapacityOf(fewer, r), CapacityOf(more, r), weights[r]);
    }
    SumMonotone(weights.Keys, Weighted(weights, fewer, Most), Weighted(weights, more, Most));
  }

  lemma MostGrows(weights: map<string, Int64>, fewer: map<string, Int64>, more: map<string, Int64>)
    requires InRange(weights, fewer) && InRange(weights, more)
    requires forall r | r in weights :: CapacityOf(fewer, r) <= CapacityOf(more, r)
    ensures RawScore(weights, fewer, Most).Some? && RawScore(weights, more, Most).Some?
    ensures RawScore(weights, fewer, Most).value <= RawScore(weights, more, Most).value
  {
    MostIsMean(weights, fewer);
    MostIsMean(weights, more);
    MoreCapacityMoreWeight(weights, fewer, more);
    TruncDivMonotone(Sum(weights.Keys, Weighted(weights, fewer, Most)), Sum(weights.Keys, Weighted(weights, more, Most)),
                     Sum(weights.Keys, WeightOf(weights)));
  }

  lemma MostIsNotNegative(weights: map<string, Int64>, capacities: map<string, Int64>)
    requires InRange(weights, capacities)
    ensures RawScore(weights, capacities, Most).Some? && RawScore(weights, capacities, Most).value >= 0
  {
    MostIsMean(weights, capacities);
    MoreCapacityMoreWeight(weights, map[], capacities);
    NothingWeighsNothing(weights);
    TruncDivMonotone(0, Sum(weights.Keys, Weighted(weights, capacities, Most)), Sum(weights.Keys, WeightOf(weights)));
    DivOfMultiple(0, Sum(weights.Keys, WeightOf(weights)));
  }

  /** Mode Most prefers the larger of two nodes, mode Least the smaller one. */
  lemma ModesPreferAsNamed(weights: map<string, Int64>, fewer: map<string, Int64>, more: map<string, Int64>)
    requires InRange(weights, fewer) && InRange(weights, more)
    requires forall r | r in weights :: CapacityOf(fewer, r) <= CapacityOf(more, r)
    ensures RawScore(weights, fewer, Most).Some? && RawScore(weights, more, Most).Some?
    ensures RawScore(weights, fewer, Least).Some? && RawScore(weights, more, Least).Some?
    ensures 0 <= RawScore(weights, fewer, Most).value <= RawScore(weights, more, Most).value
    ensures RawScore(weights, more, Least).value <= RawScore(weights, fewer, Least).value <= 0
  {
    MostIsNotNegative(weights, fewer);
    MostGrows(weights, fewer, more);
    ModesMirror(weights, fewer);
    ModesMirror(weights, more);
  }

  lemma NothingWeighsNothing(weights: map<string, Int64>)
    ensures Sum(weights.Keys, Weighted(weights, map[], Most)) == 0
  {
    SumScaled(weights.Keys, WeightOf(weights), Weighted(weights, map[], Most), 0);
  }

  lemma {:induction false} SumScaled(s: set<string>, f: string -> int, g: string -> int, factor: int)
    requires forall x | x in s :: g(x) == factor * f(x)
    ensures Sum(s, g) == factor * Sum(s, f)
    decreases |s|
  {
    if s != {} {
      var x :| x in s;
      SumRemove(s, f, x);
      SumRemove(s, g, x);
      SumScaled(s - {x}, f, g, factor);
      assert factor * (f(x) + Sum(s - {x}, f)) == factor * f(x) + factor * Sum(s - {x}, f);
    }
  }

  /** The score is a weighted mean: a node that has the same amount of every weighted resource scores that amount. */
  lemma EvenNodeScoresItsAmount(weights: map<string, Int64>, capacities: map<string, Int64>, amount: Int64)
    requires InRange(weights, capacities) && forall r | r in weights :: CapacityOf(capacities, r) == amount
    ensures RawScore(weights, capacities, Most) == Some(amount)
  {
    var weight := Sum(weights.Keys, WeightOf(weights));
    MostIsMean(weights, capacities);
    SumScaled(weights.Keys, WeightOf(weights), Weighted(weights, capacities, Most), amount);
    DivOfMultiple(Abs(amount), weight);
    assert Abs(amount * weight) == Abs(amount) * weight;
  }

  // ----- normalisation -----

  function Highest(scores: seq<Int64>): Int64 {
    if scores == [] then -MAX_INT64
    else
      var h := Highest(scores[..|scores| - 1]);
      if scores[|scores| - 1] > h then scores[|scores| - 1] else h
  }

  function Lowest(scores: seq<Int64>): Int64 {
    if scores == [] then MAX_INT64
    else
      var l := Lowest(scores[..|scores| - 1]);
      if scores[|scores| - 1] < l then scores[|scores| - 1] else l
  }

  const MAX_NODE_SCORE := 100

  function Rescale(s: Int64, lowest: Int64, oldRange: Int64): Int64 {
    if oldRange == 0 then 0
    else Wrap(TruncDiv(Wrap(Wrap(s - lowest) * MAX_NODE_SCORE), oldRange))
  }

  function Normalized(scores: seq<Int64>): seq<Int64> {
    seq(|scores|, i requires 0 <= i < |scores| => Rescale(scores[i], Lowest(scores), Wrap(Highest(scores) - Lowest(scores))))
  }

  method NormalizeScore(scores: array<Int64>)
    modifies scores
    ensures scores[..] == Normalized(old(scores[..]))
  {
    var highest: Int64, lowest: Int64 := -MAX_INT64, MAX_INT64;
    ghost var was := scores[..];
    assert was[..|was|] == was;
    for i := 0 to scores.Length
      invariant scores[..] == was
      invariant highest == Highest(was[..i]) && lowest == Lowest(was[..i])
    {
      assert was[..i + 1][..i] == was[..i];
      if scores[i] > highest { highest := scores[i]; }
      if scores[i] < lowest { lowest := scores[i]; }
    }
    var oldRange := Wrap(highest - lowest);
    for i := 0 to scores.Length
      invariant forall k | 0 <= k < i :: scores[k] == Rescale(was[k], lowest, oldRange)
      invariant forall k | i <= k < scores.Length :: scores[k] == was[k]
    {
      if oldRange == 0 {
        scores[i] := 0;
      } else {
        scores[i] := Wrap(TruncDiv(Wrap(Wrap(scores[i] - lowest) * MAX_NODE_SCORE), oldRange));
      }
    }
  }

  ghost predicate Bounds(scores: seq<Int64>, min: Int64, max: Int64) {
    min in scores && max in scores && forall s | s in scores :: min <= s <= max
  }

  lemma {:induction false} ExtremesAreFound(scores: seq<Int64>)
    ensures forall s | s in scores :: Lowest(scores) <= s <= Highest(scores)
    ensures scores != [] ==> Lowest(scores) in scores
    ensures Highest(scores) in scores || (Highest(scores) == -MAX_INT64 && forall s | s in scores :: s <= -MAX_INT64)
    decreases |scores|
  {
    if scores != [] {
      var n := |scores| - 1;
      assert scores == scores[..n] + [scores[n]];
      ExtremesAreFound(scores[..n]);
    }
  }

  /** The exact value that a score is mapped to when nothing overflows. */
  function Share(s: int, min: int, max: int): int {
    if max == min then 0 else (s - min) * MAX_NODE_SCORE / (max - min)
  }

  lemma ShareInRange(s: int, min: int, max: int)
    requires min <= s <= max
    ensures 0 <= Share(s, min, max) <= MAX_NODE_SCORE
    ensures min < max ==> Share(min, min, max) == 0 && Share(max, min, max) == MAX_NODE_SCORE
  {
    if min < max {
      var range := max - min;
      DivOfMultiple(0, range);
      DivOfMultiple(MAX_NODE_SCORE, range);
      DivMonotone(0, (s - min) * MAX_NODE_SCORE, range);
      DivMonotone((s - min) * MAX_NODE_SCORE, range * MAX_NODE_SCORE, range);
    }
  }

  lemma RescaleIsExact(s: Int64, min: Int64, max: Int64)
    requires min <= s <= max && max - min <= MAX_INT64 / MAX_NODE_SCORE
    ensures Rescale(s, min, Wrap(max - min)) == Share(s, min, max)
  {
    ShareInRange(s, min, max);
    assert Wrap(max - min) == max - min && Wrap(s - min) == s - min;
    assert Wrap((s - min) * MAX_NODE_SCORE) == (s - min) * MAX_NODE_SCORE;
  }

  /** With a range of at most (2^63 - 1) / 100 no intermediate value overflows. */
  lemma NormalizedIsShare(scores: seq<Int64>, min: Int64, max: Int64, i: nat)
    requires Bounds(scores, min, max) && max - min <= MAX_INT64 / MAX_NODE_SCORE && i < |scores|
    ensures Normalized(scores)[i] == Share(scores[i], min, max)
  {
    ExtremesAreFound(scores);
    assert scores[i] in scores;
    assert Lowest(scores) == min;
    RescaleIsExact(scores[i], min, max);
    if Highest(scores) != max {
      assert min == max == scores[i] == MIN_INT64;
    }
  }

  /** Normalised scores lie in 0..100 and keep the order; the extremes of a real range become 0 and 100. */
  lemma NormalisationKeepsOrder(scores: seq<Int64>, min: Int64, max: Int64, i: nat, j: nat)
    requires Bounds(scores, min, max) && max - min <= MAX_INT64 / MAX_NODE_SCORE && i < |scores| && j < |scores|
    ensures 0 <= Normalized(scores)[i] <= MAX_NODE_SCORE
    ensures scores[i] <= scores[j] ==> Normalized(scores)[i] <= Normalized(scores)[j]
    ensures min < max && scores[i] == min ==> Normalized(scores)[i] == 0
    ensures min < max && scores[i] == max ==> Normalized(scores)[i] == MAX_NODE_SCORE
  {
    NormalizedIsShare(scores, min, max, i);
    NormalizedIsShare(scores, min, max, j);
    assert scores[i] in scores && scores[j] in scores;
    ShareInRange(scores[i], min, max);
    if min < max && scores[i] <= scores[j] {
      DivMonotone((scores[i] - min) * MAX_NODE_SCORE, (scores[j] - min) * MAX_NODE_SCORE, max - min);
    }
  }

  lemma SharesAddUp(a: nat, b: nat)
    requires a + b > 0
    ensures 99 <= a * MAX_NODE_SCORE / (a + b) + b * MAX_NODE_SCORE / (a + b) <= 100
  {
    var r := a + b;
    var x, y := a * MAX_NODE_SCORE / r, b * MAX_NODE_SCORE / r;
    DivIs(a * MAX_NODE_SCORE, r);
    DivIs(b * MAX_NODE_SCORE, r);
    assert (x + y) * r == x * r + y * r;
    assert (x + y + 2) * r == (x + 1) * r + (y + 1) * r;
    MulCancel(x + y, 101, r);
    MulCancel(100, x + y + 2, r);
  }

  ghost predicate Mirrored(most: seq<Int64>, least: seq<Int64>) {
    |most| == |least| && forall k | 0 <= k < |most| :: least[k] as int == -(most[k] as int)
  }

  lemma MirroredBounds(most: seq<Int64>, least: seq<Int64>, min: Int64, max: Int64)
    requires Mirrored(most, least) && Bounds(most, min, max)
    ensures -max >= MIN_INT64 && -min <= MAX_INT64 && Bounds(least, -max, -min)
  {
    var m :| 0 <= m < |most| && most[m] == min;
    var n :| 0 <= n < |most| && most[n] == max;
    assert least[m] == -min && least[n] == -max;
    forall s | s in least ensures -max <= s <= -min {
      var k :| 0 <= k < |least| && least[k] == s;
      assert most[k] in most;
    }
  }

  lemma MirroredComplement(most: seq<Int64>, least: seq<Int64>, min: Int64, max: Int64, i: nat)
    requires Mirrored(most, least)
    requires Bounds(most, min, max) && max - min <= MAX_INT64 / MAX_NODE_SCORE && i < |most|
    ensures if min == max then Normalized(most)[i] == Normalized(least)[i] == 0
            else 99 <= Normalized(most)[i] as int + Normalized(least)[i] as int <= 100
  {
    MirroredBounds(most, least, min, max);
    assert most[i] in most;
    NormalizedIsShare(most, min, max, i);
    NormalizedIsShare(least, -max, -min, i);
    if min < max {
      var a: nat, b: nat := most[i] as int - min as int, max as int - most[i] as int;
      assert Normalized(most)[i] == a * MAX_NODE_SCORE / (a + b);
      assert Normalized(least)[i] == b * MAX_NODE_SCORE / (a + b);
      SharesAddUp(a, b);
    }
  }

  ghost predicate Scored(weights: map<string, Int64>, nodes: seq<map<string, Int64>>, mode: Mode, scores: seq<Int64>) {
    |scores| == |nodes| && forall k | 0 <= k < |nodes| :: RawScore(weights, nodes[k], mode) == Some(scores[k])
  }

  lemma FindBounds(scores: seq<Int64>) returns (min: Int64, max: Int64)
    requires scores != []
    ensures Bounds(scores, min, max)
  {
    ExtremesAreFound(scores);
    min := Lowest(scores);
    max := if Highest(scores) in scores then Highest(scores) else min;
    assert max == Highest(scores) || forall s | s in scores :: s == MIN_INT64;
  }

  lemma ScoresMirror(weights: map<string, Int64>, nodes: seq<map<string, Int64>>, most: seq<Int64>, least: seq<Int64>)
    requires Scored(weights, nodes, Most, most) && Scored(weights, nodes, Least, least)
    requires forall k, r | 0 <= k < |nodes| && r in nodes[k] :: nodes[k][r] >= 0
    requires forall k | 0 <= k < |nodes| :: Abs(Sum(weights.Keys, Weighted(weights, nodes[k], Most))) <= MAX_INT64
    ensures Mirrored(most, least)
  {
    forall k | 0 <= k < |nodes| ensures least[k] as int == -(most[k] as int) {
      ModesMirror(weights, nodes[k]);
    }
  }

  /** No two scores are more than (2^63 - 1) / 100 apart. */
  ghost predicate Narrow(scores: seq<Int64>) {
    forall s, t | s in scores && t in scores :: s as int - t as int <= MAX_INT64 / MAX_NODE_SCORE
  }

  ghost predicate AllAlike(scores: seq<Int64>) {
    forall s, t | s in scores && t in scores :: s == t
  }

  lemma NarrowBounds(scores: seq<Int64>, min: Int64, max: Int64)
    requires Bounds(scores, min, max) && Narrow(scores)
    ensures max as int - min as int <= MAX_INT64 / MAX_NODE_SCORE
  {
    assert max in scores && min in scores;
  }

  lemma AlikeBounds(scores: seq<Int64>, min: Int64, max: Int64)
    requires Bounds(scores, min, max)
    ensures AllAlike(scores) <==> min == max
  {
    assert max in scores && min in scores;
  }

  /** From the nodes' capacities to the two normalised lists: unless a weighted sum overflows or the raw scores are
      too far apart, the two modes are complementary. For each node their scores sum to 99 or 100, or are
      both 0 when all nodes are alike. */
  lemma ModesComplement(weights: map<string, Int64>, nodes: seq<map<string, Int64>>, most: seq<Int64>, least: seq<Int64>, i: nat)
    requires Scored(weights, nodes, Most, most) && Scored(weights, nodes, Least, least)
    requires forall k, r | 0 <= k < |nodes| && r in nodes[k] :: nodes[k][r] >= 0
    requires forall k | 0 <= k < |nodes| :: Abs(Sum(weights.Keys, Weighted(weights, nodes[k], Most))) <= MAX_INT64
    requires Narrow(most) && i < |nodes|
    ensures if AllAlike(most) then Normalized(most)[i] == Normalized(least)[i] == 0
            else 99 <= Normalized(most)[i] as int + Normalized(least)[i] as int <= 100
  {
    ScoresMirror(weights, nodes, most, least);
    var min, max := FindBounds(most);
    NarrowBounds(most, min, max);
    AlikeBounds(most, min, max);
    MirroredComplement(most, least, min, max, i);
  }
}
