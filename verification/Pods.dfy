// The part of a pod that the plugins read, and computePodResourceRequest.
module Pods {
  import opened Sums
  import opened Resources
  import opened Wrappers

  datatype PodPhase = Pending | Running | Succeeded | Failed | Unknown

  /** overhead is None when the pod has none or the PodOverhead gate is off. */
  datatype Pod = Pod(
    uid: string, name: string, namespace: string, priority: int, labels: map<string, string>,
    containers: seq<Resource>, initContainers: seq<Resource>, overhead: Option<Resource>)

  function Total(rs: seq<Resource>): Resource {
    if rs == [] then ZERO else Plus(Total(rs[..|rs| - 1]), rs[|rs| - 1])
  }

  function RaiseAll(r: Resource, rs: seq<Resource>): Resource {
    if rs == [] then r else Raise(RaiseAll(r, rs[..|rs| - 1]), rs[|rs| - 1])
  }

  function Request(p: Pod): Resource {
    var peak := RaiseAll(Total(p.containers), p.initContainers);
    if p.overhead.Some? then Plus(peak, p.overhead.value) else peak
  }

  /** What a pod may ask for: every quantity in its spec is non-negative. */
  ghost predicate WellFormed(p: Pod) {
    && (forall r | r in p.containers :: NonNegative(r))
    && (forall r | r in p.initContainers :: NonNegative(r))
    && (p.overhead.Some? ==> NonNegative(p.overhead.value))
  }

  ghost function OverheadAt(p: Pod, d: Dimension): int {
    if p.overhead.Some? then p.overhead.value.At(d) else 0
  }

  method ComputePodResourceRequest(p: Pod) returns (r: Resource)
    ensures r == Request(p)
  {
    var cell := new ResourceCell(ZERO);
    for i := 0 to |p.containers|
      invariant cell.Value() == Total(p.containers[..i])
    {
      assert p.containers[..i + 1][..i] == p.containers[..i];
      cell.Add(p.containers[i]);
    }
    assert p.containers[..|p.containers|] == p.containers;
    for i := 0 to |p.initContainers|
      invariant cell.Value() == RaiseAll(Total(p.containers), p.initContainers[..i])
    {
      assert p.initContainers[..i + 1][..i] == p.initContainers[..i];
      cell.SetMax(p.initContainers[i]);
    }
    assert p.initContainers[..|p.initContainers|] == p.initContainers;
    if p.overhead.Some? {
      cell.Add(p.overhead.value);
    }
    r := Resource(cell.milliCPU, cell.memory, cell.scalars);
  }

  ghost function AmountAt(d: Dimension): Resource -> int {
    (r: Resource) => r.At(d)
  }

  lemma {:induction false} TotalIsSum(rs: seq<Resource>, d: Dimension)
    ensures Total(rs).At(d) == SeqSum(rs, AmountAt(d))
    decreases |rs|
  {
    if rs != [] {
      TotalIsSum(rs[..|rs| - 1], d);
    }
  }

  lemma {:induction false} SumOfNonNegative(rs: seq<Resource>, d: Dimension)
    requires forall r | r in rs :: NonNegative(r)
    ensures SeqSum(rs, AmountAt(d)) >= 0
    decreases |rs|
  {
    if rs != [] {
      SumOfNonNegative(rs[..|rs| - 1], d);
      assert rs[|rs| - 1] in rs;
    }
  }

  lemma {:induction false} RaiseAllIsLeast(r: Resource, rs: seq<Resource>, d: Dimension)
    requires r.At(d) >= 0 && forall s | s in rs :: NonNegative(s)
    ensures RaiseAll(r, rs).At(d) >= r.At(d)
    ensures forall s | s in rs :: RaiseAll(r, rs).At(d) >= s.At(d)
    ensures RaiseAll(r, rs).At(d) == r.At(d) || exists s :: s in rs && RaiseAll(r, rs).At(d) == s.At(d)
    decreases |rs|
  {
    if rs != [] {
      var front, last := rs[..|rs| - 1], rs[|rs| - 1];
      assert rs == front + [last];
      RaiseAllIsLeast(r, front, d);
      assert last in rs;
    }
  }

  /** In each dimension the request less the overhead is the least amount that covers
      both the sum of the regular containers and each init container by itself. */
  lemma RequestIsLeastCover(p: Pod, d: Dimension, bound: int)
    requires WellFormed(p)
    ensures Request(p).At(d) >= 0
    ensures Request(p).At(d) - OverheadAt(p, d) <= bound <==>
            SeqSum(p.containers, AmountAt(d)) <= bound && forall r | r in p.initContainers :: r.At(d) <= bound
  {
    TotalIsSum(p.containers, d);
    SumOfNonNegative(p.containers, d);
    RaiseAllIsLeast(Total(p.containers), p.initContainers, d);
  }

  ghost predicate Mentions(rs: seq<Resource>, n: string) {
    exists r :: r in rs && n in r.scalars
  }

  lemma {:induction false} TotalMentions(rs: seq<Resource>, n: string)
    ensures n in Total(rs).scalars <==> Mentions(rs, n)
    decreases |rs|
  {
    if rs != [] {
      assert rs == rs[..|rs| - 1] + [rs[|rs| - 1]];
      TotalMentions(rs[..|rs| - 1], n);
    }
  }

  lemma {:induction false} RaiseAllMentions(r: Resource, rs: seq<Resource>, n: string)
    requires r.At(Scalar(n)) >= 0
    ensures RaiseAll(r, rs).At(Scalar(n)) >= 0
    ensures n in RaiseAll(r, rs).scalars <==> n in r.scalars || exists s :: s in rs && s.At(Scalar(n)) > 0
    decreases |rs|
  {
    if rs != [] {
      var front, last := rs[..|rs| - 1], rs[|rs| - 1];
      assert rs == front + [last];
      RaiseAllMentions(r, front, n);
    }
  }

  /** The scalars that the quota checks look at for a pod: those that a regular container or the overhead
      mentions, be it with amount 0, and those that an init container has some of. */
  lemma RequestMentions(p: Pod, n: string)
    requires WellFormed(p)
    ensures n in Request(p).scalars <==>
            || Mentions(p.containers, n)
            || (exists r :: r in p.initContainers && r.At(Scalar(n)) > 0)
            || (p.overhead.Some? && n in p.overhead.value.scalars)
  {
    TotalIsSum(p.containers, Scalar(n));
    SumOfNonNegative(p.containers, Scalar(n));
    TotalMentions(p.containers, n);
    RaiseAllMentions(Total(p.containers), p.initContainers, n);
  }
}
