// Less: the order of the scheduling queue, which keeps the pods of a group together.
module QueueOrder {
  import opened Pods
  import opened Gang

  /** created holds the creation times of the groups that the lister knows; queued is the time
      at which the pod first entered the queue. Times are instants on one line. */
  datatype Queued = Queued(pod: Pod, queued: int)

  type Groups = map<GroupId, int>

  function Timestamp(groups: Groups, q: Queued): int {
    var g := GroupOf(q.pod);
    if g.Some? && g.value in groups then groups[g.value] else q.queued
  }

  function NamespacedName(p: Pod): string {
    p.namespace + "/" + p.name
  }

  /** Go's < on strings. */
  predicate StringLess(a: string, b: string) {
    b != [] && (a == [] || a[0] < b[0] || (a[0] == b[0] && StringLess(a[1..], b[1..])))
  }

  predicate Less(groups: Groups, a: Queued, b: Queued) {
    if a.pod.priority != b.pod.priority then a.pod.priority > b.pod.priority
    else if Timestamp(groups, a) == Timestamp(groups, b) then
      StringLess(NamespacedName(a.pod), NamespacedName(b.pod))
    else Timestamp(groups, a) < Timestamp(groups, b)
  }

  lemma {:induction false} StringLessIsStrict(a: string, b: string)
    ensures !(StringLess(a, b) && StringLess(b, a))
    ensures a != b <==> StringLess(a, b) || StringLess(b, a)
    decreases |a|
  {
    if a != [] && b != [] && a[0] == b[0] {
      StringLessIsStrict(a[1..], b[1..]);
      assert a == [a[0]] + a[1..] && b == [b[0]] + b[1..];
    }
  }

  lemma {:induction false} StringLessIsTransitive(a: string, b: string, c: string)
    requires StringLess(a, b) && StringLess(b, c)
    ensures StringLess(a, c)
    decreases |a|
  {
    if a != [] && a[0] == b[0] == c[0] {
      StringLessIsTransitive(a[1..], b[1..], c[1..]);
    }
  }

  /** Two pods are unordered exactly when nothing distinguishes them; pods with different names never are. */
  lemma LessIsTotal(groups: Groups, a: Queued, b: Queued)
    ensures !(Less(groups, a, b) && Less(groups, b, a)) && !Less(groups, a, a)
    ensures Less(groups, a, b) || Less(groups, b, a) <==>
            a.pod.priority != b.pod.priority || Timestamp(groups, a) != Timestamp(groups, b)
            || NamespacedName(a.pod) != NamespacedName(b.pod)
  {
    StringLessIsStrict(NamespacedName(a.pod), NamespacedName(b.pod));
    StringLessIsStrict(NamespacedName(a.pod), NamespacedName(a.pod));
  }

  lemma LessIsTransitive(groups: Groups, a: Queued, b: Queued, c: Queued)
    requires Less(groups, a, b) && Less(groups, b, c)
    ensures Less(groups, a, c)
  {
    if Timestamp(groups, a) == Timestamp(groups, b) == Timestamp(groups, c) && a.pod.priority == b.pod.priority == c.pod.priority {
      StringLessIsTransitive(NamespacedName(a.pod), NamespacedName(b.pod), NamespacedName(c.pod));
    }
  }

  // ----- whole queues -----

  ghost predicate InOrder(groups: Groups, queue: seq<Queued>) {
    forall i, j | 0 <= i < j < |queue| :: Less(groups, queue[i], queue[j])
  }

  /** Go's < is the lexicographic order. */
  lemma {:induction false} StringLessIsLexicographic(a: string, b: string)
    ensures StringLess(a, b) <==>
            a < b || exists k :: 0 <= k < |a| && k < |b| && a[..k] == b[..k] && a[k] < b[k]
    decreases |a|
  {
    if a != [] && b != [] {
      StringLessIsLexicographic(a[1..], b[1..]);
      assert a == [a[0]] + a[1..] && b == [b[0]] + b[1..];
      if k :| 0 <= k < |a| && k < |b| && a[..k] == b[..k] && a[k] < b[k] {
        if k > 0 {
          assert a[0] == a[..k][0] == b[0];
          assert a[1..][..k - 1] == a[..k][1..] && b[1..][..k - 1] == b[..k][1..];
          assert a[1..][k - 1] == a[k];
        }
      }
      if a[0] == b[0] {
        if k :| 0 <= k < |a[1..]| && k < |b[1..]| && a[1..][..k] == b[1..][..k] && a[1..][k] < b[1..][k] {
          assert a[..k + 1] == [a[0]] + a[1..][..k] && b[..k + 1] == [b[0]] + b[1..][..k];
          assert a[k + 1] == a[1..][k];
        }
      } else if a[0] < b[0] {
        assert a[..0] == b[..0];
      }
    }
  }

  /** The time that counts for a pod: when its group was created, or else when the pod was queued. */
  ghost predicate CountsFrom(groups: Groups, q: Queued, time: int) {
    if GroupOf(q.pod).Some? && GroupOf(q.pod).value in groups then time == groups[GroupOf(q.pod).value] else time == q.queued
  }

  /** A queue in order serves higher priorities first, among equals the older group or pod, and then goes by name. */
  lemma QueueGoesByPriorityThenAge(groups: Groups, queue: seq<Queued>, i: nat, j: nat, first: int, second: int)
    requires InOrder(groups, queue) && i < j < |queue|
    requires CountsFrom(groups, queue[i], first) && CountsFrom(groups, queue[j], second)
    ensures queue[i].pod.priority >= queue[j].pod.priority
    ensures queue[i].pod.priority == queue[j].pod.priority ==> first <= second
    ensures queue[i].pod.priority == queue[j].pod.priority && first == second ==>
              StringLess(queue[i].pod.namespace + "/" + queue[i].pod.name, queue[j].pod.namespace + "/" + queue[j].pod.name)
  {
    assert Less(groups, queue[i], queue[j]);
  }

  /** No group, and no pod outside the groups, has the creation time of another group of the same priority. */
  ghost predicate DistinctTimes(groups: Groups, queue: seq<Queued>) {
    forall a, b | a in queue && b in queue && GroupOf(a.pod).Some? && GroupOf(a.pod).value in groups
                  && GroupOf(a.pod) != GroupOf(b.pod) && a.pod.priority == b.pod.priority ::
      Timestamp(groups, a) != Timestamp(groups, b)
  }

  /** Anything queued between two pods of one group with equal priorities shares their priority and timestamp... */
  lemma BetweenSharesTimestamp(groups: Groups, queue: seq<Queued>, i: nat, j: nat, k: nat)
    requires InOrder(groups, queue) && i < j < k < |queue|
    requires GroupOf(queue[i].pod) == GroupOf(queue[k].pod) && GroupOf(queue[i].pod).Some?
    requires GroupOf(queue[i].pod).value in groups && queue[i].pod.priority == queue[k].pod.priority
    ensures queue[j].pod.priority == queue[i].pod.priority
    ensures Timestamp(groups, queue[j]) == Timestamp(groups, queue[i])
  {
    assert Less(groups, queue[i], queue[j]) && Less(groups, queue[j], queue[k]);
  }

  /** ...so the pods of a group stand back to back unless something else was created at the very same time. */
  lemma GroupsStandTogether(groups: Groups, queue: seq<Queued>, i: nat, j: nat, k: nat)
    requires InOrder(groups, queue) && DistinctTimes(groups, queue) && i < j < k < |queue|
    requires GroupOf(queue[i].pod) == GroupOf(queue[k].pod) && GroupOf(queue[i].pod).Some?
    requires GroupOf(queue[i].pod).value in groups && queue[i].pod.priority == queue[k].pod.priority
    ensures GroupOf(queue[j].pod) == GroupOf(queue[i].pod)
  {
    BetweenSharesTimestamp(groups, queue, i, j, k);
    assert queue[i] in queue && queue[j] in queue;
  }
}
