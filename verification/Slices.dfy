// Go slices: a prefix of a backing array that other slices may share.
module Slices {

  datatype Slice<T> = Slice(data: array<T>, len: nat)

  ghost predicate InBounds<T>(s: Slice<T>) {
    s.len <= s.data.Length
  }

  ghost function Contents<T>(s: Slice<T>): seq<T>
    requires InBounds(s)
    reads s.data
  {
    s.data[..s.len]
  }

  method Nil<T(0)>() returns (s: Slice<T>)
    ensures InBounds(s) && fresh(s.data) && s.data.Length == 0 && Contents(s) == []
  {
    var data := new T[0];
    s := Slice(data, 0);
  }

  /** append: in place while there is room, otherwise into a new array of the given capacity, which is
      the runtime's to choose. In place, only the slot just behind the slice is written. */
  method Append<T(0)>(s: Slice<T>, e: T, capacity: nat) returns (r: Slice<T>)
    requires InBounds(s) && capacity > s.len
    modifies s.data
    ensures InBounds(r) && r.len == s.len + 1
    ensures Contents(r) == old(Contents(s)) + [e] && Contents(s) == old(Contents(s))
    ensures if s.len < s.data.Length then r.data == s.data else fresh(r.data) && r.data.Length == capacity
    ensures forall k | 0 <= k < s.data.Length && k != s.len :: s.data[k] == old(s.data[k])
  {
    if s.len < s.data.Length {
      s.data[s.len] := e;
      assert s.data[..s.len + 1] == old(s.data[..s.len]) + [e];
      r := Slice(s.data, s.len + 1);
    } else {
      var data := new T[capacity];
      for i := 0 to s.len
        invariant data[..i] == s.data[..i] && s.data[..] == old(s.data[..])
      {
        data[i] := s.data[i];
      }
      data[s.len] := e;
      assert data[..s.len + 1] == s.data[..s.len] + [e];
      r := Slice(data, s.len + 1);
    }
  }
}
