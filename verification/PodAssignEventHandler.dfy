// The event handler that keeps the lists of LoadCache in place: one slice per
// node, appended to, shifted down, zeroed and truncated.
module PodAssignEventHandler {
  import opened LoadCache
  import opened Slices

  /** copy(a[to:], a[from:end]) for a downward move. */
  method CopyDown(a: array<PodInfo>, to: nat, from: nat, end: nat)
    requires to <= from <= end <= a.Length
    modifies a
    ensures a[..to + end - from] == old(a[..to]) + old(a[from..end])
    ensures a[to + end - from..] == old(a[to + end - from..])
  {
    ghost var was := a[..];
    for i := 0 to end - from
      invariant forall k | 0 <= k < to :: a[k] == was[k]
      invariant forall k | to <= k < to + i :: a[k] == was[k + (from - to)]
      invariant forall k | to + i <= k < a.Length :: a[k] == was[k]
    {
      a[to + i] := a[from + i];
    }
    CopiedDown(was, a[..], to, from, end);
  }

  lemma CopiedDown(was: seq<PodInfo>, now: seq<PodInfo>, to: nat, from: nat, end: nat)
    requires to <= from <= end <= |was| == |now|
    requires forall k | 0 <= k < to :: now[k] == was[k]
    requires forall k | to <= k < to + end - from :: now[k] == was[k + (from - to)]
    requires forall k | to + end - from <= k < |now| :: now[k] == was[k]
    ensures now[..to + end - from] == was[..to] + was[from..end]
    ensures now[to + end - from..] == was[to + end - from..]
  {
  }

  method Clear(a: array<PodInfo>, from: nat, end: nat)
    requires from <= end <= a.Length
    modifies a
    ensures a[..from] == old(a[..from])
    ensures forall k | from <= k < end :: a[k] == Empty
    ensures a[end..] == old(a[end..])
  {
    for i := from to end
      invariant a[..from] == old(a[..from])
      invariant forall k | from <= k < i :: a[k] == Empty
      invariant a[end..] == old(a[end..])
    {
      a[i] := Empty;
    }
  }

  /** sort.Search for the first entry that is still fresh. */
  method Search(s: Slice<PodInfo>, now: int) returns (idx: nat)
    requires InBounds(s)
    ensures idx == SearchBetween(Contents(s), now, 0, s.len)
  {
    var i, j := 0, s.len;
    while i < j
      invariant i <= j <= s.len
      invariant SearchBetween(Contents(s), now, i, j) == SearchBetween(Contents(s), now, 0, s.len)
    {
      var h := (i + j) / 2;
      if !Fresh(s.data[h], now) {
        i := h + 1;
      } else {
        j := h;
      }
    }
    idx := i;
  }

  /** What vacated slots of the slice are left as. */
  ghost predicate Vacated(s: Slice<PodInfo>, oldLen: nat)
    requires InBounds(s)
    reads s.data
  {
    forall k | s.len <= k < oldLen && k < s.data.Length :: s.data[k] == Empty
  }

  /** Removes the first entry with the UID, keeps the others in order, and zeroes the slot that falls free. */
  method Remove(s: Slice<PodInfo>, uid: string) returns (r: Slice<PodInfo>)
    requires InBounds(s)
    modifies s.data
    ensures r.data == s.data && InBounds(r)
    ensures Contents(r) == RemoveFirst(old(Contents(s)), uid)
    ensures Vacated(r, s.len)
  {
    ghost var list := Contents(s);
    for i := 0 to s.len
      invariant Contents(s) == list
      invariant forall k | 0 <= k < i :: !HasUid(list[k], uid)
    {
      if HasUid(s.data[i], uid) {
        RemoveFirstRemovesOne(list, uid, i);
        CopyDown(s.data, i, i + 1, s.len);
        Clear(s.data, s.len - 1, s.len);
        return Slice(s.data, s.len - 1);
      }
    }
    RemoveFirstOfAbsent(list, uid);
    return s;
  }

  /** Drops the first idx entries. */
  method DropFirst(s: Slice<PodInfo>, idx: nat) returns (r: Slice<PodInfo>)
    requires InBounds(s) && idx <= s.len
    modifies s.data
    ensures r.data == s.data && InBounds(r) && r.len == s.len - idx
    ensures Contents(r) == old(Contents(s))[idx..]
    ensures Vacated(r, s.len)
  {
    CopyDown(s.data, 0, idx, s.len);
    Clear(s.data, s.len - idx, s.len);
    r := Slice(s.data, s.len - idx);
  }

  class Handler {
    var cache: map<string, Slice<PodInfo>>
    ghost var lists: Lists
    ghost var Repr: set<object>

    ghost predicate Valid()
      reads this, Repr
    {
      && this in Repr && cache.Keys == lists.Keys
      && (forall node | node in cache ::
            cache[node].data in Repr && InBounds(cache[node]) && Contents(cache[node]) == lists[node])
      && (forall a, b | a in cache && b in cache && a != b :: cache[a].data != cache[b].data)
    }

    constructor ()
      ensures Valid() && fresh(Repr) && lists == map[]
    {
      cache, lists, Repr := map[], map[], {this};
    }

    /** Installs the slice that one node's list has become. */
    method Store(node: string, s: Slice<PodInfo>, ghost list: seq<PodInfo>)
      requires this in Repr && InBounds(s) && Contents(s) == list
      requires cache.Keys == lists.Keys
      requires forall n | n in cache && n != node ::
                 && cache[n].data in Repr && InBounds(cache[n]) && Contents(cache[n]) == lists[n] && cache[n].data != s.data
      requires forall a, b | a in cache && b in cache && a != b :: cache[a].data != cache[b].data
      modifies this
      ensures Valid() && Repr == old(Repr) + {s.data} && lists == old(lists)[node := list]
    {
      cache, lists, Repr := cache[node := s], lists[node := list], Repr + {s.data};
    }

    method UpdateCache(p: Pod, now: int)
      requires Valid()
      modifies Repr
      ensures Valid() && fresh(Repr - old(Repr))
      ensures lists == Record(old(lists), p, now)
    {
      if p.nodeName == "" { return; }
      var s;
      if p.nodeName in cache {
        s := cache[p.nodeName];
      } else {
        s := Nil();
      }
      ghost var list := if p.nodeName in lists then lists[p.nodeName] else [];
      var capacity: nat :| capacity > s.len;
      var r := Append(s, PodInfo(now, p), capacity);
      Store(p.nodeName, r, list + [PodInfo(now, p)]);
    }

    method OnAdd(p: Pod, now: int)
      requires Valid()
      modifies Repr
      ensures Valid() && fresh(Repr - old(Repr))
      ensures lists == Next(old(lists), Added(p, now))
    {
      UpdateCache(p, now);
    }

    method OnUpdate(oldNode: string, p: Pod, now: int)
      requires Valid()
      modifies Repr
      ensures Valid() && fresh(Repr - old(Repr))
      ensures lists == Next(old(lists), Updated(oldNode, p, now))
    {
      if oldNode != p.nodeName {
        UpdateCache(p, now);
      }
    }

    method RemoveAt(node: string, uid: string)
      requires Valid() && node in lists
      modifies Repr
      ensures Valid() && Repr == old(Repr)
      ensures lists == old(lists)[node := RemoveFirst(old(lists)[node], uid)]
    {
      ghost var list := lists[node];
      var r := Remove(cache[node], uid);
      Store(node, r, RemoveFirst(list, uid));
    }

    method OnDelete(p: Pod)
      requires Valid()
      modifies Repr
      ensures Valid() && Repr == old(Repr)
      ensures lists == Next(old(lists), Deleted(p))
    {
      if p.nodeName in cache {
        RemoveAt(p.nodeName, p.uid);
      }
    }

    /** A list that loses entries keeps at least the one that the search has found, so the
        branch that would drop the node itself is never taken. */
    method CleanupNode(node: string, now: int)
      requires Valid() && node in lists
      modifies Repr
      ensures Valid() && Repr == old(Repr)
      ensures lists == old(lists)[node := Expire(old(lists)[node], now)]
    {
      ghost var list := lists[node];
      var s := cache[node];
      var idx := Search(s, now);
      if idx == s.len { return; }
      var r := DropFirst(s, idx);
      if r.len == 0 {
        assert false;
      } else {
        Store(node, r, Expire(list, now));
      }
    }

    method CleanupCache(clock: string -> int)
      requires Valid()
      modifies Repr
      ensures Valid() && Repr == old(Repr)
      ensures lists == Next(old(lists), Cleanup(clock))
    {
      ghost var before := lists;
      var todo := cache.Keys;
      HalfDoneEnds(before, clock);
      while todo != {}
        invariant Valid() && Repr == old(Repr)
        invariant todo <= before.Keys
        invariant lists == HalfDone(before, clock, todo)
        decreases todo
      {
        var node :| node in todo;
        HalfDoneStep(before, clock, todo, node);
        CleanupNode(node, clock(node));
        todo := todo - {node};
      }
    }
  }

  /** The lists of the nodes in todo are still as before. */
  ghost function HalfDone(before: Lists, clock: string -> int, todo: set<string>): Lists {
    map n | n in before :: if n in todo then before[n] else Expire(before[n], clock(n))
  }

  lemma HalfDoneEnds(before: Lists, clock: string -> int)
    ensures HalfDone(before, clock, before.Keys) == before
    ensures HalfDone(before, clock, {}) == Next(before, Cleanup(clock))
  {
  }

  lemma HalfDoneStep(before: Lists, clock: string -> int, todo: set<string>, node: string)
    requires node in before && node in todo
    ensures var now := HalfDone(before, clock, todo);
            now[node := Expire(now[node], clock(node))] == HalfDone(before, clock, todo - {node})
  {
  }
}
