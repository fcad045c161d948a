// CheckClusterResource: can the nodes together hold the minimum resources of a
// pod group? The method consumes its own copy of the request node by node.
module ClusterCheck {
  import opened Sums
  import opened Wrappers

  /** Resource amounts by name, in one base unit per resource. */
  type Amounts = map<string, int>

  function Get(m: Amounts, n: string): int {
    if n in m then m[n] else 0
  }

  /** group is the full name of the pod's group, empty if it has none. */
  datatype NodePod = NodePod(group: string, request: Amounts)

  /** requested is kept up to date by the node: it is the sum of the requests of pods. */
  datatype Node = Node(allocatable: Amounts, allowedPods: int, pods: seq<NodePod>, requested: Amounts)

  /** Resources that a node reports whether or not they are listed as allocatable. */
  const BASIC := {"cpu", "memory", "ephemeral-storage"}

  ghost function RequestOf(n: string): NodePod -> int {
    (p: NodePod) => Get(p.request, n)
  }

  ghost function InsideOf(group: string, n: string): NodePod -> int {
    (p: NodePod) => if p.group == group then Get(p.request, n) else 0
  }

  ghost function OutsideOf(group: string, n: string): NodePod -> int {
    (p: NodePod) => if p.group == group then 0 else Get(p.request, n)
  }

  ghost function OutsideCount(group: string): NodePod -> int {
    (p: NodePod) => if p.group == group then 0 else 1
  }

  ghost predicate Consistent(node: Node) {
    forall n :: Get(node.requested, n) == SeqSum(node.pods, RequestOf(n))
  }

  /** What the node could give to the group: its allocatable amount less the requests of all pods outside the group. */
  ghost function Free(node: Node, group: string, n: string): int {
    if n == "pods" then node.allowedPods - SeqSum(node.pods, OutsideCount(group))
    else if n in BASIC || n in node.allocatable then Get(node.allocatable, n) - SeqSum(node.pods, OutsideOf(group, n))
    else 0
  }

  function Less(a: Amounts, b: Amounts): (c: Amounts)
    ensures forall n :: Get(c, n) == Get(a, n) - Get(b, n)
  {
    map n | n in a.Keys + b.Keys :: Get(a, n) - Get(b, n)
  }

  lemma {:induction false} InsideAndOutside(pods: seq<NodePod>, group: string, n: string)
    ensures SeqSum(pods, RequestOf(n)) == SeqSum(pods, InsideOf(group, n)) + SeqSum(pods, OutsideOf(group, n))
    decreases |pods|
  {
    if pods != [] {
      InsideAndOutside(pods[..|pods| - 1], group, n);
    }
  }

  /** Takes the pods of the group off a copy of the node and reports what is left. */
  method GetNodeResource(node: Node, group: string) returns (left: Amounts)
    requires Consistent(node)
    ensures forall n :: Get(left, n) == Free(node, group, n)
  {
    var requested, count := node.requested, |node.pods|;
    assert node.pods[..|node.pods|] == node.pods;
    for i := 0 to |node.pods|
      invariant forall n :: Get(requested, n) == Get(node.requested, n) - SeqSum(node.pods[..i], InsideOf(group, n))
      invariant count == |node.pods| - i + SeqSum(node.pods[..i], OutsideCount(group))
    {
      assert node.pods[..i + 1][..i] == node.pods[..i];
      if node.pods[i].group == group {
        requested, count := Less(requested, node.pods[i].request), count - 1;
      }
    }
    forall n ensures Get(requested, n) == SeqSum(node.pods, OutsideOf(group, n)) {
      InsideAndOutside(node.pods, group, n);
    }
    left := map n | n in BASIC + node.allocatable.Keys - {"pods"} :: Get(node.allocatable, n) - Get(requested, n);
    left := left["pods" := node.allowedPods - count];
  }

  /** A node without pods has its allocatable amounts left and all its pod slots... */
  lemma FreeOfEmptyNode(node: Node, group: string, n: string)
    requires node.pods == []
    ensures Free(node, group, n) == if n == "pods" then node.allowedPods else Get(node.allocatable, n)
  {
  }

  lemma OutsideWithOneMore(pods: seq<NodePod>, pod: NodePod, group: string, n: string)
    ensures SeqSum(pods + [pod], OutsideCount(group)) == SeqSum(pods, OutsideCount(group)) + if pod.group == group then 0 else 1
    ensures SeqSum(pods + [pod], OutsideOf(group, n)) ==
            SeqSum(pods, OutsideOf(group, n)) + if pod.group == group then 0 else Get(pod.request, n)
  {
    SeqSumSnoc(pods, pod, OutsideCount(group));
    SeqSumSnoc(pods, pod, OutsideOf(group, n));
  }

  /** ...and each pod takes its request and a slot, unless it belongs to the group itself. */
  lemma FreeWithOneMorePod(node: Node, pod: NodePod, group: string, n: string)
    ensures var before, after := Free(node, group, n), Free(node.(pods := node.pods + [pod]), group, n);
            if pod.group == group then after == before
            else if n == "pods" then after == before - 1
            else if n in {"cpu", "memory", "ephemeral-storage"} || n in node.allocatable then after == before - Get(pod.request, n)
            else after == before
  {
    OutsideWithOneMore(node.pods, pod, group, n);
  }

  // ----- consuming the request -----

  /** Nodes without a node object are skipped. */
  ghost function FreeAt(group: string, n: string): Option<Node> -> int {
    (node: Option<Node>) => if node.Some? then Free(node.value, group, n) else 0
  }

  ghost predicate AnyUsable(nodes: seq<Option<Node>>) {
    exists i :: 0 <= i < |nodes| && nodes[i].Some?
  }

  /** Up to and including some usable node, the nodes together have enough. */
  ghost predicate Reached(nodes: seq<Option<Node>>, group: string, n: string, amount: int) {
    exists k :: 0 < k <= |nodes| && nodes[k - 1].Some? && SeqSum(nodes[..k], FreeAt(group, n)) >= amount
  }

  ghost predicate Enough(nodes: seq<Option<Node>>, group: string, request: Amounts) {
    AnyUsable(nodes) && forall n | n in request :: Reached(nodes, group, n, request[n])
  }

  /** What is left of the request after some nodes. */
  ghost predicate Outstanding(nodes: seq<Option<Node>>, group: string, request: Amounts, gap: Amounts) {
    && (forall n :: n in gap <==> n in request && !Reached(nodes, group, n, request[n]))
    && (forall n | n in gap :: gap[n] == request[n] - SeqSum(nodes, FreeAt(group, n)))
    && (AnyUsable(nodes) ==> gap != map[])
  }

  lemma ReachedSnoc(nodes: seq<Option<Node>>, node: Option<Node>, group: string, n: string, amount: int)
    ensures SeqSum(nodes + [node], FreeAt(group, n)) == SeqSum(nodes, FreeAt(group, n)) + FreeAt(group, n)(node)
    ensures Reached(nodes + [node], group, n, amount) <==>
            Reached(nodes, group, n, amount) || (node.Some? && SeqSum(nodes + [node], FreeAt(group, n)) >= amount)
  {
    var all := nodes + [node];
    assert all[..|nodes|] == nodes && all[..|all|] == all;
    if Reached(nodes, group, n, amount) {
      var k :| 0 < k <= |nodes| && nodes[k - 1].Some? && SeqSum(nodes[..k], FreeAt(group, n)) >= amount;
      assert all[..k] == nodes[..k] && all[k - 1] == nodes[k - 1];
    }
    if Reached(all, group, n, amount) {
      var k :| 0 < k <= |all| && all[k - 1].Some? && SeqSum(all[..k], FreeAt(group, n)) >= amount;
      if k <= |nodes| {
        assert all[..k] == nodes[..k] && all[k - 1] == nodes[k - 1];
      } else {
        assert all[..k] == all;
      }
    }
  }

  /** Subtracts one node's resources from every amount still wanted, dropping those that are covered. */
  method Consume(gap: Amounts, left: Amounts) returns (rest: Amounts)
    ensures forall n :: n in rest <==> n in gap && gap[n] - Get(left, n) > 0
    ensures forall n | n in rest :: rest[n] == gap[n] - Get(left, n)
  {
    rest := gap;
    var todo := gap.Keys;
    while todo != {}
      invariant todo <= gap.Keys
      invariant forall n :: n in rest <==> n in gap && (n in todo || gap[n] - Get(left, n) > 0)
      invariant forall n | n in rest :: rest[n] == if n in todo then gap[n] else gap[n] - Get(left, n)
      decreases todo
    {
      var n :| n in todo;
      var quantity := rest[n] - Get(left, n);
      if quantity <= 0 {
        rest := rest - {n};
      } else {
        rest := rest[n := quantity];
      }
      todo := todo - {n};
    }
  }

  lemma OutstandingSnoc(nodes: seq<Option<Node>>, node: Option<Node>, group: string, request: Amounts, gap: Amounts, rest: Amounts)
    requires Outstanding(nodes, group, request, gap)
    requires node.None? ==> rest == gap
    requires node.Some? ==>
               && (forall n :: n in rest <==> n in gap && gap[n] - Free(node.value, group, n) > 0)
               && (forall n | n in rest :: rest[n] == gap[n] - Free(node.value, group, n))
    ensures rest != map[] || node.None? ==> Outstanding(nodes + [node], group, request, rest)
    ensures node.Some? && rest == map[] ==> Enough(nodes + [node], group, request)
  {
    var all := nodes + [node];
    forall n | n in request
      ensures n in rest <==> !Reached(all, group, n, request[n])
      ensures n in rest ==> rest[n] == request[n] - SeqSum(all, FreeAt(group, n))
    {
      ReachedSnoc(nodes, node, group, n, request[n]);
    }
    assert all[|nodes|] == node;
    if node.None? && AnyUsable(all) {
      var i :| 0 <= i < |all| && all[i].Some?;
      assert nodes[i].Some?;
    }
  }

  lemma EnoughEarly(nodes: seq<Option<Node>>, i: nat, group: string, request: Amounts)
    requires i <= |nodes| && Enough(nodes[..i], group, request)
    ensures Enough(nodes, group, request)
  {
    var j :| 0 <= j < i && nodes[..i][j].Some?;
    assert nodes[j].Some?;
    forall n | n in request ensures Reached(nodes, group, n, request[n]) {
      var k :| 0 < k <= i && nodes[..i][k - 1].Some? && SeqSum(nodes[..i][..k], FreeAt(group, n)) >= request[n];
      assert nodes[..i][..k] == nodes[..k];
    }
  }

  /** One round of the loop: a node without a node object is passed over. */
  method TakeNode(node: Option<Node>, gap: Amounts, request: Amounts, group: string, ghost seen: seq<Option<Node>>) returns (rest: Amounts)
    requires node.Some? ==> Consistent(node.value)
    requires Outstanding(seen, group, request, gap)
    ensures rest != map[] || node.None? ==> Outstanding(seen + [node], group, request, rest)
    ensures node.Some? && rest == map[] ==> Enough(seen + [node], group, request)
  {
    rest := gap;
    if node.Some? {
      var left := GetNodeResource(node.value, group);
      rest := Consume(gap, left);
    }
    OutstandingSnoc(seen, node, group, request, gap, rest);
  }

  lemma StillWanting(nodes: seq<Option<Node>>, group: string, request: Amounts, gap: Amounts)
    requires Outstanding(nodes, group, request, gap)
    ensures !Enough(nodes, group, request)
  {
    if AnyUsable(nodes) {
      var n :| n in gap;
      assert !Reached(nodes, group, n, request[n]);
    }
  }

  /** ok is the nil error. Stops at the first node after which nothing is wanted any more. */
  method CheckClusterResource(nodes: seq<Option<Node>>, request: Amounts, group: string) returns (ok: bool)
    requires forall i | 0 <= i < |nodes| && nodes[i].Some? :: Consistent(nodes[i].value)
    ensures ok <==> Enough(nodes, group, request)
  {
    var gap := request;
    assert nodes[..|nodes|] == nodes;
    for i := 0 to |nodes|
      invariant Outstanding(nodes[..i], group, request, gap)
    {
      assert nodes[..i + 1] == nodes[..i] + [nodes[i]];
      gap := TakeNode(nodes[i], gap, request, group, nodes[..i]);
      if nodes[i].Some? && gap == map[] {
        EnoughEarly(nodes, i + 1, group, request);
        return true;
      }
    }
    StillWanting(nodes, group, request, gap);
    return false;
  }

  // ----- what it means -----

  /** No node is overcommitted in resource n. */
  ghost predicate NeverNegative(nodes: seq<Option<Node>>, group: string, n: string) {
    forall node | node in nodes && node.Some? :: Free(node.value, group, n) >= 0
  }

  lemma {:induction false} PrefixBelowTotal(nodes: seq<Option<Node>>, k: nat, group: string, n: string)
    requires k <= |nodes| && NeverNegative(nodes, group, n)
    ensures SeqSum(nodes[..k], FreeAt(group, n)) <= SeqSum(nodes, FreeAt(group, n))
    decreases |nodes|
  {
    if k == |nodes| {
      assert nodes[..k] == nodes;
    } else {
      var last := |nodes| - 1;
      assert nodes[last] in nodes && forall node | node in nodes[..last] :: node in nodes;
      PrefixBelowTotal(nodes[..last], k, group, n);
      assert nodes[..last][..k] == nodes[..k];
    }
  }

  /** The last usable node already sees the full total. */
  lemma {:induction false} TotalAtLastUsable(nodes: seq<Option<Node>>, group: string, n: string, amount: int)
    requires AnyUsable(nodes) && SeqSum(nodes, FreeAt(group, n)) >= amount
    ensures Reached(nodes, group, n, amount)
    decreases |nodes|
  {
    var last := |nodes| - 1;
    assert nodes == nodes[..last] + [nodes[last]];
    ReachedSnoc(nodes[..last], nodes[last], group, n, amount);
    if nodes[last].None? {
      var i :| 0 <= i < |nodes| && nodes[i].Some?;
      assert nodes[..last][i].Some?;
      TotalAtLastUsable(nodes[..last], group, n, amount);
    }
  }

  /** On a single node the check is just a comparison with what the node has left. */
  lemma OneNodeEnough(node: Node, group: string, request: Amounts)
    ensures Enough([Some(node)], group, request) <==> forall n | n in request :: Free(node, group, n) >= request[n]
  {
    var nodes := [Some(node)];
    assert nodes[0].Some? && nodes[..1] == [] + [Some(node)];
    forall n: string, amount ensures Reached(nodes, group, n, amount) <==> Free(node, group, n) >= amount {
      SeqSumSnoc([], Some(node), FreeAt(group, n));
      assert nodes[1 - 1].Some?;
    }
  }

  // ----- exactly when totals and order do not matter -----

  /** In general, the total decides about every amount exactly if no prefix that ends in a usable node has more than all nodes together. */
  lemma TotalsDecideIff(nodes: seq<Option<Node>>, group: string, n: string)
    requires AnyUsable(nodes)
    ensures (forall amount :: Reached(nodes, group, n, amount) <==> SeqSum(nodes, FreeAt(group, n)) >= amount) <==>
            (forall k | 0 < k <= |nodes| && nodes[k - 1].Some? ::
               SeqSum(nodes[..k], FreeAt(group, n)) <= SeqSum(nodes, FreeAt(group, n)))
  {
    var total := SeqSum(nodes, FreeAt(group, n));
    if k :| 0 < k <= |nodes| && nodes[k - 1].Some? && SeqSum(nodes[..k], FreeAt(group, n)) > total {
      assert Reached(nodes, group, n, SeqSum(nodes[..k], FreeAt(group, n)));
    } else {
      forall amount ensures Reached(nodes, group, n, amount) <==> total >= amount {
        if total >= amount {
          TotalAtLastUsable(nodes, group, n, amount);
        }
      }
    }
  }

  /** One node is overcommitted in resource n while another has some of it left. */
  ghost predicate Mixed(nodes: seq<Option<Node>>, group: string, n: string) {
    (exists a :: a in nodes && FreeAt(group, n)(a) < 0) && (exists b :: b in nodes && FreeAt(group, n)(b) > 0)
  }

  lemma SameNodes(nodes: seq<Option<Node>>, others: seq<Option<Node>>)
    requires multiset(others) == multiset(nodes)
    ensures forall node :: node in nodes <==> node in others
    ensures AnyUsable(nodes) <==> AnyUsable(others)
  {
    forall node ensures node in nodes <==> node in others {
      assert node in nodes <==> node in multiset(nodes);
      assert node in others <==> node in multiset(others);
    }
    assert AnyUsable(nodes) <==> exists node :: node in nodes && node.Some?;
    assert AnyUsable(others) <==> exists node :: node in others && node.Some?;
  }

  lemma NothingFreeNothingReached(nodes: seq<Option<Node>>, group: string, n: string, amount: int)
    requires amount > 0 && forall node | node in nodes :: FreeAt(group, n)(node) <= 0
    ensures !Reached(nodes, group, n, amount)
  {
    forall k | 0 < k <= |nodes| ensures SeqSum(nodes[..k], FreeAt(group, n)) <= 0 {
      SeqSumNonPositive(nodes[..k], FreeAt(group, n));
    }
  }

  lemma ReachedMeansTotal(nodes: seq<Option<Node>>, group: string, n: string, amount: int)
    requires NeverNegative(nodes, group, n)
    ensures Reached(nodes, group, n, amount) <==> AnyUsable(nodes) && SeqSum(nodes, FreeAt(group, n)) >= amount
  {
    if Reached(nodes, group, n, amount) {
      var k :| 0 < k <= |nodes| && nodes[k - 1].Some? && SeqSum(nodes[..k], FreeAt(group, n)) >= amount;
      PrefixBelowTotal(nodes, k, group, n);
    } else if AnyUsable(nodes) && SeqSum(nodes, FreeAt(group, n)) >= amount {
      TotalAtLastUsable(nodes, group, n, amount);
    }
  }

  lemma UnmixedIgnoresOrder(nodes: seq<Option<Node>>, others: seq<Option<Node>>, group: string, n: string, amount: int)
    requires multiset(others) == multiset(nodes) && amount > 0 && !Mixed(nodes, group, n)
    ensures Reached(nodes, group, n, amount) <==> Reached(others, group, n, amount)
  {
    SameNodes(nodes, others);
    if exists a :: a in nodes && FreeAt(group, n)(a) < 0 {
      NothingFreeNothingReached(nodes, group, n, amount);
      NothingFreeNothingReached(others, group, n, amount);
    } else {
      assert forall node | node in nodes && node.Some? :: FreeAt(group, n)(node) == Free(node.value, group, n);
      ReachedMeansTotal(nodes, group, n, amount);
      ReachedMeansTotal(others, group, n, amount);
      SeqSumPermutation(nodes, others, FreeAt(group, n));
    }
  }

  /** The nodes with some of resource n left, or those without. */
  ghost function Roomy(nodes: seq<Option<Node>>, group: string, n: string, roomy: bool): seq<Option<Node>> {
    if nodes == [] then []
    else
      var front, last := Roomy(nodes[..|nodes| - 1], group, n, roomy), nodes[|nodes| - 1];
      if (FreeAt(group, n)(last) > 0) == roomy then front + [last] else front
  }

  lemma {:induction false} RoomyCounts(nodes: seq<Option<Node>>, group: string, n: string, node: Option<Node>)
    ensures multiset(Roomy(nodes, group, n, true))[node] + multiset(Roomy(nodes, group, n, false))[node] == multiset(nodes)[node]
    decreases |nodes|
  {
    if nodes != [] {
      var front, last := nodes[..|nodes| - 1], nodes[|nodes| - 1];
      RoomyCounts(front, group, n, node);
      assert nodes == front + [last];
      assert multiset(nodes) == multiset(front) + multiset{last};
    }
  }

  lemma {:induction false} RoomyMembers(nodes: seq<Option<Node>>, group: string, n: string, roomy: bool)
    ensures forall node :: node in Roomy(nodes, group, n, roomy) <==> node in nodes && (FreeAt(group, n)(node) > 0) == roomy
    decreases |nodes|
  {
    if nodes != [] {
      assert nodes == nodes[..|nodes| - 1] + [nodes[|nodes| - 1]];
      RoomyMembers(nodes[..|nodes| - 1], group, n, roomy);
    }
  }

  lemma RoomyPermutes(nodes: seq<Option<Node>>, group: string, n: string)
    ensures var roomy, rest := Roomy(nodes, group, n, true), Roomy(nodes, group, n, false);
            multiset(roomy + rest) == multiset(rest + roomy) == multiset(nodes)
  {
    var roomy, rest := Roomy(nodes, group, n, true), Roomy(nodes, group, n, false);
    forall node ensures multiset(roomy + rest)[node] == multiset(rest + roomy)[node] == multiset(nodes)[node] {
      RoomyCounts(nodes, group, n, node);
    }
  }

  lemma RoomyFirst(roomy: seq<Option<Node>>, rest: seq<Option<Node>>, group: string, n: string)
    requires roomy != [] && forall node | node in roomy :: FreeAt(group, n)(node) > 0
    ensures Reached(roomy + rest, group, n, SeqSum(roomy, FreeAt(group, n)))
  {
    var k := |roomy|;
    assert (roomy + rest)[..k] == roomy && (roomy + rest)[k - 1] == roomy[k - 1];
    assert roomy[k - 1] in roomy;
  }

  lemma RestFirstFallsShort(roomy: seq<Option<Node>>, rest: seq<Option<Node>>, group: string, n: string, k: nat)
    requires NeverNegative(roomy, group, n) && SeqSum(roomy, FreeAt(group, n)) > 0
    requires forall node | node in rest :: FreeAt(group, n)(node) <= 0
    requires SeqSum(rest, FreeAt(group, n)) < 0 && k <= |rest + roomy|
    ensures SeqSum((rest + roomy)[..k], FreeAt(group, n)) < SeqSum(roomy, FreeAt(group, n))
  {
    if k <= |rest| {
      assert (rest + roomy)[..k] == rest[..k];
      SeqSumNonPositive(rest[..k], FreeAt(group, n));
    } else {
      assert (rest + roomy)[..k] == rest + roomy[..k - |rest|];
      SeqSumConcat(rest, roomy[..k - |rest|], FreeAt(group, n));
      PrefixBelowTotal(roomy, k - |rest|, group, n);
    }
  }

  lemma RoomySum(roomy: seq<Option<Node>>, group: string, n: string)
    requires roomy != [] && forall node | node in roomy :: FreeAt(group, n)(node) > 0
    ensures NeverNegative(roomy, group, n) && SeqSum(roomy, FreeAt(group, n)) > 0
  {
    var last := |roomy| - 1;
    assert forall node | node in roomy && node.Some? :: FreeAt(group, n)(node) == Free(node.value, group, n);
    assert roomy[last] in roomy && forall node | node in roomy[..last] :: node in roomy;
    PrefixBelowTotal(roomy[..last], 0, group, n);
  }

  lemma RoomyLast(roomy: seq<Option<Node>>, rest: seq<Option<Node>>, group: string, n: string)
    requires roomy != [] && forall node | node in roomy :: FreeAt(group, n)(node) > 0
    requires forall node | node in rest :: FreeAt(group, n)(node) <= 0
    requires exists node :: node in rest && FreeAt(group, n)(node) < 0
    ensures SeqSum(roomy, FreeAt(group, n)) > 0
    ensures !Reached(rest + roomy, group, n, SeqSum(roomy, FreeAt(group, n)))
  {
    RoomySum(roomy, group, n);
    SeqSumNonPositive(rest, FreeAt(group, n));
    forall k | 0 < k <= |rest + roomy|
      ensures SeqSum((rest + roomy)[..k], FreeAt(group, n)) < SeqSum(roomy, FreeAt(group, n))
    {
      RestFirstFallsShort(roomy, rest, group, n, k);
    }
  }

  /** Two orders of the same nodes that disagree about some amount. */
  lemma MixedOrdersDisagree(nodes: seq<Option<Node>>, group: string, n: string)
    returns (one: seq<Option<Node>>, other: seq<Option<Node>>, amount: int)
    requires Mixed(nodes, group, n)
    ensures multiset(one) == multiset(nodes) == multiset(other) && amount > 0
    ensures Reached(one, group, n, amount) && !Reached(other, group, n, amount)
  {
    var roomy, rest := Roomy(nodes, group, n, true), Roomy(nodes, group, n, false);
    RoomyPermutes(nodes, group, n);
    RoomyMembers(nodes, group, n, true);
    RoomyMembers(nodes, group, n, false);
    var a :| a in nodes && FreeAt(group, n)(a) < 0;
    var b :| b in nodes && FreeAt(group, n)(b) > 0;
    assert a in rest && b in roomy;
    RoomyFirst(roomy, rest, group, n);
    RoomyLast(roomy, rest, group, n);
    one, other, amount := roomy + rest, rest + roomy, SeqSum(roomy, FreeAt(group, n));
  }

  ghost predicate Positive(request: Amounts, names: set<string>) {
    request.Keys <= names && forall n | n in request :: request[n] > 0
  }

  lemma MixedRequest(nodes: seq<Option<Node>>, group: string, n: string)
    returns (one: seq<Option<Node>>, other: seq<Option<Node>>, request: Amounts)
    requires Mixed(nodes, group, n)
    ensures multiset(one) == multiset(nodes) == multiset(other) && request.Keys == {n} && Positive(request, {n})
    ensures Enough(one, group, request) && !Enough(other, group, request)
  {
    var amount;
    one, other, amount := MixedOrdersDisagree(nodes, group, n);
    request := map[n := amount];
    assert n in request && request[n] == amount;
  }

  /** The verdict on requests for positive amounts of the named resources is the same for every order
      of the nodes exactly if none of these resources is overcommitted on one node and left over on another. */
  lemma OrderIsIrrelevantIff(nodes: seq<Option<Node>>, group: string, names: set<string>)
    ensures (forall others, request | multiset(others) == multiset(nodes) && Positive(request, names) ::
               Enough(others, group, request) <==> Enough(nodes, group, request)) <==>
            (forall n | n in names :: !Mixed(nodes, group, n))
  {
    if n :| n in names && Mixed(nodes, group, n) {
      var one, other, request := MixedRequest(nodes, group, n);
      assert Positive(request, names);
    } else {
      forall others, request | multiset(others) == multiset(nodes) && Positive(request, names)
        ensures Enough(others, group, request) <==> Enough(nodes, group, request)
      {
        SameNodes(nodes, others);
        forall n | n in request
          ensures Reached(nodes, group, n, request[n]) <==> Reached(others, group, n, request[n])
        {
          UnmixedIgnoresOrder(nodes, others, group, n, request[n]);
        }
      }
    }
  }

  // ----- the same for arbitrary amounts -----

  /** All usable nodes have the same amount of resource n left. */
  ghost predicate Alike(nodes: seq<Option<Node>>, group: string, n: string) {
    forall a, b | a in nodes && b in nodes && a.Some? && b.Some? :: Free(a.value, group, n) == Free(b.value, group, n)
  }

  /** Without anything left anywhere, no prefix has more than its first node. */
  lemma FirstDecides(first: Option<Node>, rest: seq<Option<Node>>, group: string, n: string, amount: int)
    requires first.Some? && forall node | node in [first] + rest :: FreeAt(group, n)(node) <= 0
    ensures Reached([first] + rest, group, n, amount) <==> FreeAt(group, n)(first) >= amount
  {
    var nodes, f := [first] + rest, FreeAt(group, n);
    assert nodes[..1] == [] + [first];
    SeqSumSnoc([], first, f);
    forall k | 0 < k <= |nodes| ensures SeqSum(nodes[..k], f) <= f(first) {
      assert nodes[..k] == [first] + rest[..k - 1];
      SeqSumConcat([first], rest[..k - 1], f);
      assert forall node | node in rest[..k - 1] :: node in nodes;
      SeqSumNonPositive(rest[..k - 1], f);
    }
    assert nodes[1 - 1].Some?;
  }

  function ToFront(nodes: seq<Option<Node>>, i: nat): seq<Option<Node>>
    requires i < |nodes|
  {
    [nodes[i]] + (nodes[..i] + nodes[i + 1..])
  }

  lemma ToFrontPermutes(nodes: seq<Option<Node>>, i: nat)
    requires i < |nodes|
    ensures multiset(ToFront(nodes, i)) == multiset(nodes)
  {
    BagWithout(nodes, i);
    assert nodes[i] in multiset(nodes);
  }

  lemma UnlikeOrdersDisagree(nodes: seq<Option<Node>>, group: string, n: string)
    returns (one: seq<Option<Node>>, other: seq<Option<Node>>, amount: int)
    requires !Alike(nodes, group, n) && forall node | node in nodes :: FreeAt(group, n)(node) <= 0
    ensures multiset(one) == multiset(nodes) == multiset(other)
    ensures Reached(one, group, n, amount) && !Reached(other, group, n, amount)
  {
    var f := FreeAt(group, n);
    var i: nat, j: nat :| i < |nodes| && j < |nodes| && nodes[i].Some? && nodes[j].Some? && f(nodes[i]) > f(nodes[j]);
    one, other, amount := ToFront(nodes, i), ToFront(nodes, j), f(nodes[i]);
    ToFrontPermutes(nodes, i);
    ToFrontPermutes(nodes, j);
    SameNodes(nodes, one);
    SameNodes(nodes, other);
    FirstDecides(nodes[i], nodes[..i] + nodes[i + 1..], group, n, amount);
    FirstDecides(nodes[j], nodes[..j] + nodes[j + 1..], group, n, amount);
  }

  /** If all nodes are alike and overcommitted, it takes one of them to reach what can be reached. */
  lemma AlikeReached(nodes: seq<Option<Node>>, group: string, n: string, free: int, amount: int)
    requires free < 0 && AnyUsable(nodes)
    requires forall node | node in nodes && node.Some? :: Free(node.value, group, n) == free
    ensures Reached(nodes, group, n, amount) <==> free >= amount
  {
    var f := FreeAt(group, n);
    forall k | 0 < k <= |nodes| && nodes[k - 1].Some? ensures SeqSum(nodes[..k], f) <= free {
      assert nodes[..k] == nodes[..k - 1] + [nodes[k - 1]];
      SeqSumSnoc(nodes[..k - 1], nodes[k - 1], f);
      assert forall node | node in nodes[..k - 1] :: node in nodes;
      SeqSumNonPositive(nodes[..k - 1], f);
    }
    var i := FirstUsable(nodes);
    PrefixBelowTotal(nodes[..i], 0, group, n);
    assert nodes[..i + 1] == nodes[..i] + [nodes[i]];
    SeqSumSnoc(nodes[..i], nodes[i], f);
    assert nodes[(i + 1) - 1] in nodes;
  }

  lemma FirstUsable(nodes: seq<Option<Node>>) returns (i: nat)
    requires AnyUsable(nodes)
    ensures i < |nodes| && nodes[i].Some? && forall k | 0 <= k < i :: nodes[k].None?
  {
    i := 0;
    while nodes[i].None?
      invariant i < |nodes| && forall k | 0 <= k < i :: nodes[k].None?
      decreases |nodes| - i
    {
      assert exists j :: i < j < |nodes| && nodes[j].Some?;
      i := i + 1;
    }
  }

  lemma AlikeIgnoresOrder(nodes: seq<Option<Node>>, others: seq<Option<Node>>, group: string, n: string, amount: int)
    requires multiset(others) == multiset(nodes) && (NeverNegative(nodes, group, n) || Alike(nodes, group, n))
    ensures Reached(nodes, group, n, amount) <==> Reached(others, group, n, amount)
  {
    SameNodes(nodes, others);
    if NeverNegative(nodes, group, n) {
      ReachedMeansTotal(nodes, group, n, amount);
      ReachedMeansTotal(others, group, n, amount);
      SeqSumPermutation(nodes, others, FreeAt(group, n));
    } else {
      var node :| node in nodes && node.Some? && Free(node.value, group, n) < 0;
      AlikeReached(nodes, group, n, Free(node.value, group, n), amount);
      AlikeReached(others, group, n, Free(node.value, group, n), amount);
    }
  }

  lemma OrdersDisagree(nodes: seq<Option<Node>>, group: string, n: string)
    returns (one: seq<Option<Node>>, other: seq<Option<Node>>, request: Amounts)
    requires !NeverNegative(nodes, group, n) && !Alike(nodes, group, n)
    ensures multiset(one) == multiset(nodes) == multiset(other) && request.Keys == {n}
    ensures Enough(one, group, request) && !Enough(other, group, request)
  {
    if Mixed(nodes, group, n) {
      one, other, request := MixedRequest(nodes, group, n);
    } else {
      var node :| node in nodes && node.Some? && Free(node.value, group, n) < 0;
      assert FreeAt(group, n)(node) < 0;
      var amount;
      one, other, amount := UnlikeOrdersDisagree(nodes, group, n);
      request := map[n := amount];
      assert n in request && request[n] == amount;
    }
  }

  /** For requests of any amounts, zero and negative ones included, the order is irrelevant exactly if
      each resource is overcommitted on no node, or equally so on all of them. */
  lemma OrderIsIrrelevantForAllIff(nodes: seq<Option<Node>>, group: string, names: set<string>)
    ensures (forall others, request: Amounts | multiset(others) == multiset(nodes) && request.Keys <= names ::
               Enough(others, group, request) <==> Enough(nodes, group, request)) <==>
            (forall n | n in names :: NeverNegative(nodes, group, n) || Alike(nodes, group, n))
  {
    if n :| n in names && !NeverNegative(nodes, group, n) && !Alike(nodes, group, n) {
      var one, other, request := OrdersDisagree(nodes, group, n);
      assert request.Keys <= names;
    } else {
      forall others, request: Amounts | multiset(others) == multiset(nodes) && request.Keys <= names
        ensures Enough(others, group, request) <==> Enough(nodes, group, request)
      {
        SameNodes(nodes, others);
        forall n | n in request
          ensures Reached(nodes, group, n, request[n]) <==> Reached(others, group, n, request[n])
        {
          AlikeIgnoresOrder(nodes, others, group, n, request[n]);
        }
      }
    }
  }

  // ----- without overcommitted nodes -----

  /** As long as no node is overcommitted, CheckClusterResource compares the request with the cluster's total free resources... */
  lemma EnoughMeansTotals(nodes: seq<Option<Node>>, group: string, request: Amounts)
    requires forall n | n in request :: NeverNegative(nodes, group, n)
    ensures Enough(nodes, group, request) <==>
            AnyUsable(nodes) && forall n | n in request :: SeqSum(nodes, FreeAt(group, n)) >= request[n]
  {
    forall n | n in request
      ensures Reached(nodes, group, n, request[n]) <==> AnyUsable(nodes) && SeqSum(nodes, FreeAt(group, n)) >= request[n]
    {
      ReachedMeansTotal(nodes, group, n, request[n]);
    }
  }

  /** ...and the order in which the nodes are listed is irrelevant, for any amounts. */
  lemma EnoughIgnoresOrder(nodes: seq<Option<Node>>, others: seq<Option<Node>>, group: string, request: Amounts)
    requires multiset(nodes) == multiset(others)
    requires forall n | n in request :: NeverNegative(nodes, group, n)
    ensures Enough(nodes, group, request) <==> Enough(others, group, request)
  {
    SameNodes(nodes, others);
    forall n | n in request ensures SeqSum(nodes, FreeAt(group, n)) == SeqSum(others, FreeAt(group, n)) {
      SeqSumPermutation(nodes, others, FreeAt(group, n));
    }
    EnoughMeansTotals(nodes, group, request);
    EnoughMeansTotals(others, group, request);
  }

  /** With one they can: roomy before crowded passes, crowded before roomy fails. */
  lemma OvercommittedNodesMakeOrderMatter()
    ensures var crowd := NodePod("other", map["cpu" := 3]);
            var crowded := Some(Node(map[], 10, [crowd], map["cpu" := 3]));
            var roomy := Some(Node(map["cpu" := 5], 10, [], map[]));
            && Enough([roomy, crowded], "ns/gang", map["cpu" := 4])
            && !Enough([crowded, roomy], "ns/gang", map["cpu" := 4])
  {
    var crowd := NodePod("other", map["cpu" := 3]);
    var crowded := Some(Node(map[], 10, [crowd], map["cpu" := 3]));
    var roomy := Some(Node(map["cpu" := 5], 10, [], map[]));
    var f := FreeAt("ns/gang", "cpu");
    assert SeqSum([crowd], OutsideOf("ns/gang", "cpu")) == 3 by {
      assert [crowd][..0] == [];
    }
    assert f(crowded) == -3 && f(roomy) == 5;
    assert [roomy, crowded][..1] == [roomy];
    assert SeqSum([roomy, crowded][..1], f) == 5;
    assert [roomy, crowded][0].Some?;
    assert Reached([roomy, crowded], "ns/gang", "cpu", 4);
    var wanted: Amounts := map["cpu" := 4];
    assert "cpu" in wanted;
    assert [crowded, roomy][..1] == [crowded];
    assert [crowded, roomy][..2] == [crowded, roomy];
    assert SeqSum([crowded], f) == -3 && SeqSum([crowded, roomy], f) == 2;
    forall k | 0 < k <= 2 ensures SeqSum([crowded, roomy][..k], f) < 4 {
      assert k == 1 || k == 2;
    }
  }
}
