// What the load-aware scorer remembers about each node: a list of recent pods in
// order of time. The list as a value, and whole runs of the event handler.
module LoadCache {
  import opened Wrappers

  /** CPU amounts in millicores; None where a container sets none. */
  datatype Container = Container(limit: Option<int>, request: Option<int>)

  datatype Pod = Pod(uid: string, nodeName: string, containers: seq<Container>, overhead: int)

  /** Empty is the zero value that is written over vacated slots. Timestamps are in nanoseconds. */
  datatype PodInfo = Empty | PodInfo(timestamp: int, pod: Pod)

  type Lists = map<string, seq<PodInfo>>

  const SECOND := 1_000_000_000
  const REPORTING_INTERVAL := 60

  predicate HasUid(e: PodInfo, uid: string) {
    e.PodInfo? && e.pod.uid == uid
  }

  predicate Fresh(e: PodInfo, now: int) {
    e.PodInfo? && e.timestamp + REPORTING_INTERVAL * SECOND > now
  }

  // ----- the list operations -----

  function RemoveFirst(list: seq<PodInfo>, uid: string): seq<PodInfo> {
    if list == [] then []
    else if HasUid(list[0], uid) then list[1..]
    else [list[0]] + RemoveFirst(list[1..], uid)
  }

  /** The binary search of sort.Search: between i and j. */
  function SearchBetween(list: seq<PodInfo>, now: int, i: nat, j: nat): (r: nat)
    requires i <= j <= |list|
    ensures i <= r <= j
    decreases j - i
  {
    if i == j then i
    else
      var h := (i + j) / 2;
      if !Fresh(list[h], now) then SearchBetween(list, now, h + 1, j) else SearchBetween(list, now, i, h)
  }

  /** A list without any fresh entry is left alone. */
  function Expire(list: seq<PodInfo>, now: int): seq<PodInfo> {
    var idx := SearchBetween(list, now, 0, |list|);
    if idx == |list| then list else list[idx..]
  }

  // ----- what they mean on lists in order of time -----

  ghost predicate Sorted(list: seq<PodInfo>) {
    && (forall e | e in list :: e.PodInfo?)
    && forall i, j | 0 <= i < j < |list| :: list[i].timestamp <= list[j].timestamp
  }

  function FreshOnes(list: seq<PodInfo>, now: int): seq<PodInfo> {
    if list == [] then [] else (if Fresh(list[0], now) then [list[0]] else []) + FreshOnes(list[1..], now)
  }

  lemma {:induction false} SearchFindsFirstFresh(list: seq<PodInfo>, now: int, i: nat, j: nat)
    requires Sorted(list) && i <= j <= |list|
    requires forall k | 0 <= k < i :: !Fresh(list[k], now)
    requires forall k | j <= k < |list| :: Fresh(list[k], now)
    ensures var r := SearchBetween(list, now, i, j);
            && (forall k | 0 <= k < r :: !Fresh(list[k], now))
            && (forall k | r <= k < |list| :: Fresh(list[k], now))
    decreases j - i
  {
    if i < j {
      var h := (i + j) / 2;
      assert forall k | 0 <= k < |list| :: list[k].PodInfo?;
      if !Fresh(list[h], now) {
        SearchFindsFirstFresh(list, now, h + 1, j);
      } else {
        SearchFindsFirstFresh(list, now, i, h);
      }
    }
  }

  lemma {:induction false} FreshSuffix(list: seq<PodInfo>, now: int, r: nat)
    requires r <= |list|
    requires forall k | 0 <= k < r :: !Fresh(list[k], now)
    requires forall k | r <= k < |list| :: Fresh(list[k], now)
    ensures FreshOnes(list, now) == list[r..]
    decreases |list|
  {
    if list != [] {
      if r == 0 {
        FreshSuffix(list[1..], now, 0);
        assert list == [list[0]] + list[1..];
      } else {
        FreshSuffix(list[1..], now, r - 1);
        assert list[1..][r - 1..] == list[r..];
      }
    }
  }

  lemma {:induction false} FreshOnesAreRecent(list: seq<PodInfo>, now: int, e: PodInfo)
    ensures e in FreshOnes(list, now) <==> e in list && e.PodInfo? && e.timestamp > now - 60_000_000_000
    decreases |list|
  {
    if list != [] {
      assert list == [list[0]] + list[1..];
      FreshOnesAreRecent(list[1..], now, e);
    }
  }

  /** Expiry leaves exactly the fresh entries, in order, if there is one; and otherwise everything. */
  lemma ExpireKeepsFresh(list: seq<PodInfo>, now: int)
    requires Sorted(list)
    ensures Expire(list, now) == if FreshOnes(list, now) != [] then FreshOnes(list, now) else list
  {
    SearchFindsFirstFresh(list, now, 0, |list|);
    FreshSuffix(list, now, SearchBetween(list, now, 0, |list|));
  }

  /** Deletion takes out one entry, the first with the UID, and keeps the others in order... */
  lemma {:induction false} RemoveFirstRemovesOne(list: seq<PodInfo>, uid: string, i: nat)
    requires i < |list| && HasUid(list[i], uid)
    requires forall k | 0 <= k < i :: !HasUid(list[k], uid)
    ensures RemoveFirst(list, uid) == list[..i] + list[i + 1..]
    decreases |list|
  {
    if i > 0 {
      RemoveFirstRemovesOne(list[1..], uid, i - 1);
      assert list[..i] == [list[0]] + list[1..][..i - 1];
      assert list[i + 1..] == list[1..][i..];
    }
  }

  /** ...or leaves the list alone. */
  lemma {:induction false} RemoveFirstOfAbsent(list: seq<PodInfo>, uid: string)
    requires forall e | e in list :: !HasUid(e, uid)
    ensures RemoveFirst(list, uid) == list
    decreases |list|
  {
    if list != [] {
      assert forall e | e in list[1..] :: e in list;
      RemoveFirstOfAbsent(list[1..], uid);
    }
  }

  lemma {:induction false} RemoveFirstKeepsSorted(list: seq<PodInfo>, uid: string)
    requires Sorted(list)
    ensures Sorted(RemoveFirst(list, uid))
    ensures forall e | e in RemoveFirst(list, uid) :: e in list
    decreases |list|
  {
    if list != [] {
      assert Sorted(list[1..]) by { assert forall e | e in list[1..] :: e in list; }
      RemoveFirstKeepsSorted(list[1..], uid);
      var rest := RemoveFirst(list[1..], uid);
      forall e | e in rest ensures list[0].timestamp <= e.timestamp {
        assert e in list[1..];
      }
    }
  }

  // ----- runs -----

  /** Cleanup reads the clock anew for each node. */
  datatype Event =
    | Added(pod: Pod, now: int)
    | Updated(oldNode: string, pod: Pod, now: int)
    | Deleted(pod: Pod)
    | Cleanup(clock: string -> int)

  function Record(lists: Lists, p: Pod, now: int): Lists {
    if p.nodeName == "" then lists
    else lists[p.nodeName := (if p.nodeName in lists then lists[p.nodeName] else []) + [PodInfo(now, p)]]
  }

  function Next(lists: Lists, e: Event): Lists {
    match e
    case Added(p, now) => Record(lists, p, now)
    case Updated(oldNode, p, now) => if oldNode != p.nodeName then Record(lists, p, now) else lists
    case Deleted(p) => if p.nodeName in lists then lists[p.nodeName := RemoveFirst(lists[p.nodeName], p.uid)] else lists
    case Cleanup(clock) => map node | node in lists :: Expire(lists[node], clock(node))
  }

  function Run(lists: Lists, run: seq<Event>): Lists {
    if run == [] then lists else Next(Run(lists, run[..|run| - 1]), run[|run| - 1])
  }

  function TimeOf(e: Event): Option<int> {
    match e case Added(_, now) => Some(now) case Updated(_, _, now) => Some(now) case _ => None
  }

  /** The clock that stamps the entries never runs backwards. */
  ghost predicate Monotone(run: seq<Event>) {
    forall i, j | 0 <= i < j < |run| && TimeOf(run[i]).Some? && TimeOf(run[j]).Some? ::
      TimeOf(run[i]).value <= TimeOf(run[j]).value
  }

  ghost predicate AllSortedUpTo(lists: Lists, run: seq<Event>) {
    forall node | node in lists ::
      Sorted(lists[node]) && forall e | e in lists[node] :: exists i :: 0 <= i < |run| && TimeOf(run[i]) == Some(e.timestamp)
  }

  lemma StepKeepsSorted(lists: Lists, run: seq<Event>, e: Event)
    requires Monotone(run + [e]) && AllSortedUpTo(lists, run)
    ensures AllSortedUpTo(Next(lists, e), run + [e])
  {
    var all := run + [e];
    assert all[|run|] == e && forall i | 0 <= i < |run| :: all[i] == run[i];
    forall node | node in Next(lists, e)
      ensures Sorted(Next(lists, e)[node])
      ensures forall x | x in Next(lists, e)[node] :: exists i :: 0 <= i < |all| && TimeOf(all[i]) == Some(x.timestamp)
    {
      StepKeepsListSorted(lists, run, e, node);
    }
  }

  lemma SortedSnoc(list: seq<PodInfo>, e: PodInfo)
    requires Sorted(list) && e.PodInfo? && forall x | x in list && x.PodInfo? :: x.timestamp <= e.timestamp
    ensures Sorted(list + [e])
  {
    forall i | 0 <= i < |list| ensures list[i].PodInfo? && list[i].timestamp <= e.timestamp {
      assert list[i] in list;
    }
  }

  lemma SortedSuffix(list: seq<PodInfo>, k: nat)
    requires Sorted(list) && k <= |list|
    ensures Sorted(list[k..]) && forall e | e in list[k..] :: e in list
  {
  }

  lemma StampedBefore(lists: Lists, run: seq<Event>, e: Event, node: string)
    requires Monotone(run + [e]) && AllSortedUpTo(lists, run) && node in lists && TimeOf(e).Some?
    ensures forall x | x in lists[node] && x.PodInfo? :: x.timestamp <= TimeOf(e).value
  {
    var all := run + [e];
    forall x | x in lists[node] && x.PodInfo? ensures x.timestamp <= TimeOf(e).value {
      var i :| 0 <= i < |run| && TimeOf(run[i]) == Some(x.timestamp);
      assert all[i] == run[i] && all[|run|] == e;
    }
  }

  lemma StepKeepsListSorted(lists: Lists, run: seq<Event>, e: Event, node: string)
    requires Monotone(run + [e]) && AllSortedUpTo(lists, run) && node in Next(lists, e)
    ensures Sorted(Next(lists, e)[node])
    ensures forall x | x in Next(lists, e)[node] ::
              (node in lists && x in lists[node]) || (TimeOf(e).Some? && x.timestamp == TimeOf(e).value)
  {
    if node in lists {
      var list := lists[node];
      match e {
        case Added(p, now) =>
          StampedBefore(lists, run, e, node);
          SortedSnoc(list, PodInfo(now, p));
        case Updated(_, p, now) =>
          StampedBefore(lists, run, e, node);
          SortedSnoc(list, PodInfo(now, p));
        case Deleted(p) => RemoveFirstKeepsSorted(list, p.uid);
        case Cleanup(clock) => SortedSuffix(list, SearchBetween(list, clock(node), 0, |list|));
      }
    }
  }

  /** Every run of the handler keeps every list in order of time; so every cleanup along it
      removes stale entries only. */
  lemma {:induction false} RunKeepsSorted(run: seq<Event>)
    requires Monotone(run)
    ensures AllSortedUpTo(Run(map[], run), run)
    decreases |run|
  {
    if run != [] {
      var front, last := run[..|run| - 1], run[|run| - 1];
      assert run == front + [last];
      RunKeepsSorted(front);
      StepKeepsSorted(Run(map[], front), front, last);
    }
  }

  lemma CleanupKeepsFresh(lists: Lists, clock: string -> int, node: string)
    requires node in lists && Sorted(lists[node])
    ensures var after, kept := Next(lists, Cleanup(clock)), FreshOnes(lists[node], clock(node));
            after.Keys == lists.Keys && after[node] == if kept != [] then kept else lists[node]
  {
    ExpireKeepsFresh(lists[node], clock(node));
  }

  /** A cleanup never drops a node, not even an empty or wholly stale one. */
  lemma CleanupAlongRun(run: seq<Event>, clock: string -> int, node: string)
    requires Monotone(run) && node in Run(map[], run)
    ensures var before, after := Run(map[], run), Next(Run(map[], run), Cleanup(clock));
            && after.Keys == before.Keys
            && after[node] == (if FreshOnes(before[node], clock(node)) != [] then FreshOnes(before[node], clock(node)) else before[node])
  {
    RunKeepsSorted(run);
    CleanupKeepsFresh(Run(map[], run), clock, node);
  }

  /** After a cleanup a node still has exactly its entries of the last sixty seconds, or all entries if none is that recent. */
  lemma CleanupLeavesRecent(run: seq<Event>, clock: string -> int, node: string, e: PodInfo)
    requires Monotone(run) && node in Run(map[], run)
    ensures var before, after := Run(map[], run)[node], Next(Run(map[], run), Cleanup(clock));
            var limit := clock(node) - 60_000_000_000;
            && node in after
            && (e in after[node] <==>
                e in before && ((e.PodInfo? && e.timestamp > limit) || !exists x :: x in before && x.PodInfo? && x.timestamp > limit))
  {
    CleanupAlongRun(run, clock, node);
    var before := Run(map[], run)[node];
    forall x ensures x in FreshOnes(before, clock(node)) <==> x in before && x.PodInfo? && x.timestamp > clock(node) - 60_000_000_000 {
      FreshOnesAreRecent(before, clock(node), x);
    }
    if FreshOnes(before, clock(node)) != [] {
      assert FreshOnes(before, clock(node))[0] in FreshOnes(before, clock(node));
    }
  }

  /** A deletion takes exactly one entry of the pod out of the list of its node, the oldest, and touches no other list. */
  lemma DeletionTakesOldest(lists: Lists, p: Pod, i: nat)
    requires p.nodeName in lists && i <= |lists[p.nodeName]|
    requires forall k | 0 <= k < i :: !HasUid(lists[p.nodeName][k], p.uid)
    requires i < |lists[p.nodeName]| ==> HasUid(lists[p.nodeName][i], p.uid)
    ensures var list, after := lists[p.nodeName], Next(lists, Deleted(p));
            after == lists[p.nodeName := if i < |list| then list[..i] + list[i + 1..] else list]
  {
    if i < |lists[p.nodeName]| {
      RemoveFirstRemovesOne(lists[p.nodeName], p.uid, i);
    } else {
      RemoveFirstOfAbsent(lists[p.nodeName], p.uid);
    }
  }

  // ----- what is in the lists -----

  /** The entry that an event makes for a node: for a pod that is added, or has changed node, with a node set. */
  function Entry(e: Event, node: string): Option<PodInfo> {
    match e
    case Added(p, now) => if p.nodeName == node && node != "" then Some(PodInfo(now, p)) else None
    case Updated(oldNode, p, now) => if p.nodeName == node && node != "" && oldNode != node then Some(PodInfo(now, p)) else None
    case _ => None
  }

  lemma {:induction false} RemoveFirstKeepsOthers(list: seq<PodInfo>, uid: string, e: PodInfo)
    requires e in list && !HasUid(e, uid)
    ensures e in RemoveFirst(list, uid)
    decreases |list|
  {
    assert list == [list[0]] + list[1..];
    if !HasUid(list[0], uid) && e != list[0] {
      RemoveFirstKeepsOthers(list[1..], uid, e);
    }
  }

  lemma {:induction false} RemoveFirstAddsNothing(list: seq<PodInfo>, uid: string, e: PodInfo)
    requires e in RemoveFirst(list, uid)
    ensures e in list
    decreases |list|
  {
    assert list == [list[0]] + list[1..];
    if !HasUid(list[0], uid) && e != list[0] {
      RemoveFirstAddsNothing(list[1..], uid, e);
    }
  }

  lemma ExpireAddsNothing(list: seq<PodInfo>, now: int, e: PodInfo)
    requires e in Expire(list, now)
    ensures e in list
  {
  }

  /** Every entry of a list was made by some event. */
  lemma {:induction false} EntriesAreMade(run: seq<Event>, node: string, e: PodInfo)
    requires node in Run(map[], run) && e in Run(map[], run)[node]
    ensures exists i :: 0 <= i < |run| && Entry(run[i], node) == Some(e)
    decreases |run|
  {
    var n := |run| - 1;
    var front, last := Run(map[], run[..n]), run[n];
    if node in front && e in front[node] {
      EntriesAreMade(run[..n], node, e);
      var i :| 0 <= i < n && Entry(run[..n][i], node) == Some(e);
      assert run[i] == run[..n][i];
    } else {
      match last {
        case Added(_, _) => assert Entry(run[n], node) == Some(e);
        case Updated(_, _, _) => assert Entry(run[n], node) == Some(e);
        case Deleted(p) => RemoveFirstAddsNothing(front[node], p.uid, e);
        case Cleanup(clock) => ExpireAddsNothing(front[node], clock(node), e);
      }
    }
  }

  /** The event neither deletes the entry's pod nor comes as a cleanup sixty seconds or more after the entry. */
  predicate Spares(x: Event, node: string, e: PodInfo)
    requires e.PodInfo?
  {
    match x
    case Deleted(p) => p.nodeName != node || p.uid != e.pod.uid
    case Cleanup(clock) => clock(node) < e.timestamp + 60_000_000_000
    case _ => true
  }

  lemma StepKeepsEntry(lists: Lists, x: Event, node: string, e: PodInfo)
    requires node in lists && e in lists[node] && e.PodInfo? && Sorted(lists[node]) && Spares(x, node, e)
    ensures node in Next(lists, x) && e in Next(lists, x)[node]
  {
    match x {
      case Added(_, _) =>
      case Updated(_, _, _) =>
      case Deleted(p) =>
        if p.nodeName == node {
          RemoveFirstKeepsOthers(lists[node], p.uid, e);
        }
      case Cleanup(clock) =>
        FreshOnesAreRecent(lists[node], clock(node), e);
        ExpireKeepsFresh(lists[node], clock(node));
    }
  }

  /** And an entry that has been made stays until its pod is deleted or a cleanup finds it sixty seconds old. */
  lemma {:induction false} EntriesAreKept(run: seq<Event>, i: nat, node: string, e: PodInfo)
    requires Monotone(run) && i < |run| && Entry(run[i], node) == Some(e)
    requires e.PodInfo? && forall j | i < j < |run| :: Spares(run[j], node, e)
    ensures node in Run(map[], run) && e in Run(map[], run)[node]
    decreases |run|
  {
    var n := |run| - 1;
    if i < n {
      EntriesAreKept(run[..n], i, node, e);
      RunKeepsSorted(run[..n]);
      StepKeepsEntry(Run(map[], run[..n]), run[n], node, e);
    } else {
      var list := Run(map[], run)[node];
      assert list[|list| - 1] == e;
    }
  }
}
