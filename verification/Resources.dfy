// framework.Resource as the capacity plugin uses it, and the request of a pod.
module Resources {

  datatype Dimension = CPU | Memory | Scalar(name: string)

  /** A resource vector. A scalar that has no entry counts as zero. */
  datatype Resource = Resource(milliCPU: int, memory: int, scalars: map<string, int>) {
    function At(d: Dimension): int {
      match d
      case CPU => milliCPU
      case Memory => memory
      case Scalar(n) => if n in scalars then scalars[n] else 0
    }
  }

  const ZERO := Resource(0, 0, map[])

  ghost predicate NonNegative(r: Resource) {
    forall d :: r.At(d) >= 0
  }

  ghost predicate SameLookups(r: Resource, s: Resource) {
    forall d :: r.At(d) == s.At(d)
  }

  ghost predicate AtMost(r: Resource, s: Resource) {
    forall d :: r.At(d) <= s.At(d)
  }

  function Lookup(m: map<string, int>, n: string): int {
    if n in m then m[n] else 0
  }

  /** base after the entries of delta named in done have been added to it. */
  function Added(base: map<string, int>, delta: map<string, int>, done: set<string>): map<string, int>
    requires done <= delta.Keys
  {
    map n | n in base.Keys + done :: if n in done then Lookup(base, n) + delta[n] else base[n]
  }

  function Subtracted(base: map<string, int>, delta: map<string, int>, done: set<string>): map<string, int>
    requires done <= delta.Keys
  {
    map n | n in base.Keys + done :: if n in done then Lookup(base, n) - delta[n] else base[n]
  }

  /** base after each entry of delta named in done has replaced a smaller one. */
  function Raised(base: map<string, int>, delta: map<string, int>, done: set<string>): map<string, int>
    requires done <= delta.Keys
  {
    map n | n in base.Keys + done && (n in base || delta[n] > 0) ::
      if n in done && delta[n] > Lookup(base, n) then delta[n] else base[n]
  }

  lemma RaisedStep(base: map<string, int>, delta: map<string, int>, done: set<string>, n: string)
    requires done <= delta.Keys && n in delta.Keys - done
    ensures Raised(base, delta, done + {n}) ==
            var m := Raised(base, delta, done);
            if delta[n] > Lookup(m, n) then m[n := delta[n]] else m
  {
  }

  function Plus(r: Resource, s: Resource): (t: Resource)
    ensures forall d :: t.At(d) == r.At(d) + s.At(d)
  {
    Resource(r.milliCPU + s.milliCPU, r.memory + s.memory, Added(r.scalars, s.scalars, s.scalars.Keys))
  }

  function Minus(r: Resource, s: Resource): (t: Resource)
    ensures forall d :: t.At(d) == r.At(d) - s.At(d)
  {
    Resource(r.milliCPU - s.milliCPU, r.memory - s.memory, Subtracted(r.scalars, s.scalars, s.scalars.Keys))
  }

  /** SetMaxResource: raise every component of r that is below its counterpart in s. */
  function Raise(r: Resource, s: Resource): (t: Resource)
    ensures forall d :: t.At(d) == if s.At(d) > r.At(d) && (d.Scalar? ==> d.name in s.scalars) then s.At(d) else r.At(d)
  {
    Resource(if s.milliCPU > r.milliCPU then s.milliCPU else r.milliCPU,
             if s.memory > r.memory then s.memory else r.memory,
             Raised(r.scalars, s.scalars, s.scalars.Keys))
  }

  /** A *framework.Resource: the one kind of resource vector that is updated in place. */
  class ResourceCell {
    var milliCPU: int
    var memory: int
    var scalars: map<string, int>

    ghost function Value(): Resource
      reads this
    {
      Resource(milliCPU, memory, scalars)
    }

    constructor (r: Resource)
      ensures Value() == r
    {
      milliCPU, memory, scalars := r.milliCPU, r.memory, r.scalars;
    }

    /** The scalars of r are added one by one, in no particular order. */
    method Add(r: Resource)
      modifies this
      ensures Value() == Plus(old(Value()), r)
    {
      milliCPU := milliCPU + r.milliCPU;
      memory := memory + r.memory;
      ghost var goal, base := Plus(old(Value()), r), scalars;
      var done := {};
      while r.scalars.Keys - done != {}
        invariant milliCPU == goal.milliCPU && memory == goal.memory
        invariant done <= r.scalars.Keys
        invariant scalars == Added(base, r.scalars, done)
        decreases r.scalars.Keys - done
      {
        var n :| n in r.scalars.Keys - done;
        scalars := scalars[n := Lookup(scalars, n) + r.scalars[n]];
        done := done + {n};
      }
    }

    method Subtract(r: Resource)
      modifies this
      ensures Value() == Minus(old(Value()), r)
    {
      milliCPU := milliCPU - r.milliCPU;
      memory := memory - r.memory;
      ghost var goal, base := Minus(old(Value()), r), scalars;
      var done := {};
      while r.scalars.Keys - done != {}
        invariant milliCPU == goal.milliCPU && memory == goal.memory
        invariant done <= r.scalars.Keys
        invariant scalars == Subtracted(base, r.scalars, done)
        decreases r.scalars.Keys - done
      {
        var n :| n in r.scalars.Keys - done;
        scalars := scalars[n := Lookup(scalars, n) - r.scalars[n]];
        done := done + {n};
      }
    }

    method SetMax(r: Resource)
      modifies this
      ensures Value() == Raise(old(Value()), r)
    {
      if r.milliCPU > milliCPU { milliCPU := r.milliCPU; }
      if r.memory > memory { memory := r.memory; }
      ghost var goal, base := Raise(old(Value()), r), scalars;
      var done := {};
      while r.scalars.Keys - done != {}
        invariant milliCPU == goal.milliCPU && memory == goal.memory
        invariant done <= r.scalars.Keys
        invariant scalars == Raised(base, r.scalars, done)
        decreases r.scalars.Keys - done
      {
        var n :| n in r.scalars.Keys - done;
        RaisedStep(base, r.scalars, done, n);
        if r.scalars[n] > Lookup(scalars, n) {
          scalars := scalars[n := r.scalars[n]];
        }
        done := done + {n};
      }
    }
  }
}
