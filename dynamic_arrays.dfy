/**
 * The growable array `DynamicArrayEx<T, A>` (includes/ds.hpp). Its storage is a
 * Dafny array whose length is the capacity; the bytes it occupies come from a
 * `LinearAllocatorPool`, whose address for the current storage is kept in
 * `storage`.
 */
module DynamicArrays {
  import opened Wrappers
  import opened Arenas

  /** Swap-with-last removal of index `i`: the last element moves into slot `i`. */
  function SwapRemove<T>(s: seq<T>, i: nat): seq<T>
    requires i < |s|
  {
    var last := |s| - 1;
    if i < last then s[..last][i := s[last]] else s[..last]
  }

  /**
   * Removal drops one element, moves the last one into the hole, leaves every
   * other slot alone and takes exactly the removed element out of the multiset.
   */
  lemma SwapRemoveSpec<T>(s: seq<T>, i: nat)
    requires i < |s|
    ensures |SwapRemove(s, i)| == |s| - 1
    ensures i < |s| - 1 ==> SwapRemove(s, i)[i] == s[|s| - 1]
    ensures forall j :: 0 <= j < |s| - 1 && j != i ==> SwapRemove(s, i)[j] == s[j]
    ensures multiset(SwapRemove(s, i)) == multiset(s) - multiset{s[i]}
  {
    var last := |s| - 1;
    assert s == s[..last] + [s[last]];
    if i < last {
      assert s[..last] == s[..i] + [s[i]] + s[i + 1..last];
      assert SwapRemove(s, i) == s[..i] + [s[last]] + s[i + 1..last];
    }
  }

  /** The first index holding `x`. */
  function IndexOf<T(==)>(s: seq<T>, x: T): (i: nat)
    requires x in s
    ensures i < |s| && s[i] == x
    ensures forall j :: 0 <= j < i ==> s[j] != x
  {
    if s[0] == x then 0 else 1 + IndexOf(s[1..], x)
  }

  class DynamicArrayEx<T(0, ==)> {
    var data: array<T>
    var length: nat
    var capacity: nat
    /** Where the pool placed the current storage; None for the allocator-less default constructor. */
    var storage: Option<Address>
    const layout: Layout

    ghost predicate Valid()
      reads this
    {
      length <= capacity && capacity == data.Length && layout.align >= 1
    }

    /** The elements, in order. */
    ghost function Contents(): seq<T>
      reads this, data
      requires Valid()
    {
      data[..length]
    }

    /** `DynamicArrayEx(capacity, allocator)`: empty, with `capacity` slots allocated from the pool. */
    constructor (capacity: nat, layout: Layout, allocator: LinearAllocatorPool)
      requires allocator.Valid() && layout.align >= 1
      modifies allocator.Repr
      ensures Valid() && fresh(data) && Contents() == []
      ensures this.capacity == capacity && this.layout == layout
      ensures storage.Some? && storage.value.arena == |allocator.arenas| - 1
      ensures allocator.Active().used == storage.value.offset + capacity * layout.size
      ensures allocator.Valid() && fresh(allocator.Repr - old(allocator.Repr))
    {
      var addr := allocator.Alloc(layout, capacity);
      this.layout := layout;
      this.data := new T[capacity];
      this.length := 0;
      this.capacity := capacity;
      this.storage := Some(addr);
    }

    /** `DynamicArrayEx()`: empty, capacity 0, no storage. */
    constructor Empty(layout: Layout)
      requires layout.align >= 1
      ensures Valid() && fresh(data) && Contents() == [] && capacity == 0 && storage == None
      ensures this.layout == layout
    {
      this.layout := layout;
      this.data := new T[0];
      this.length := 0;
      this.capacity := 0;
      this.storage := None;
    }

    /**
     * `IncreaseCapacity(new_capacity, allocator)`: moves to fresh storage of the new
     * capacity, copying every old slot (the whole old capacity, as the pool's
     * `Realloc` does).
     */
    method IncreaseCapacity(newCapacity: nat, allocator: LinearAllocatorPool)
      requires Valid() && allocator.Valid() && capacity <= newCapacity
      modifies this, allocator.Repr
      ensures Valid() && fresh(data) && capacity == newCapacity
      ensures length == old(length) && data[..old(capacity)] == old(data[..])
      ensures Contents() == old(Contents())
      ensures storage.Some? && storage.value.arena == |allocator.arenas| - 1
      ensures allocator.Active().used == storage.value.offset + newCapacity * layout.size
      ensures allocator.Valid() && fresh(allocator.Repr - old(allocator.Repr))
    {
      var addr := allocator.Realloc(layout, capacity, newCapacity);
      var moved := new T[newCapacity];
      forall i | 0 <= i < capacity {
        moved[i] := data[i];
      }
      data := moved;
      capacity := newCapacity;
      storage := Some(addr);
    }

    /**
     * `Resize(new_length, allocator)`: sets the length, growing the storage to
     * exactly that length when it exceeds the capacity. Slots past the old
     * length keep whatever the storage held.
     */
    method Resize(newLength: nat, allocator: LinearAllocatorPool)
      requires Valid() && allocator.Valid()
      modifies this, allocator.Repr
      ensures Valid() && length == newLength
      ensures capacity == Max(old(capacity), newLength)
      ensures data[..old(capacity)] == old(data[..])
      ensures allocator.Valid() && fresh(allocator.Repr - old(allocator.Repr))
      ensures newLength <= old(capacity) ==> data == old(data) && unchanged(old(allocator.Repr))
    {
      if newLength > capacity {
        IncreaseCapacity(newLength, allocator);
      }
      length := newLength;
    }

    /**
     * `Push(elem, allocator)`: appends `elem`; when the array is full the
     * capacity first becomes `2 * capacity + 1`.
     */
    method Push(elem: T, allocator: LinearAllocatorPool)
      requires Valid() && allocator.Valid()
      modifies this, data, allocator.Repr
      ensures Valid() && Contents() == old(Contents()) + [elem]
      ensures capacity == if old(length) >= old(capacity) then 2 * old(capacity) + 1 else old(capacity)
      ensures allocator.Valid() && fresh(allocator.Repr - old(allocator.Repr))
      ensures old(length) < old(capacity) ==> data == old(data) && unchanged(old(allocator.Repr))
      ensures old(length) >= old(capacity) ==> fresh(data)
    {
      if length >= capacity {
        IncreaseCapacity(capacity * 2 + 1, allocator);
      }
      data[length] := elem;
      length := length + 1;
    }

    /** `Put(elem, index)`: writes one storage slot, which may lie past the length. */
    method Put(elem: T, index: nat)
      requires Valid() && index < capacity
      modifies data
      ensures Valid() && data[..] == old(data[..])[index := elem]
      ensures Contents() == if index < length then old(Contents())[index := elem] else old(Contents())
    {
      data[index] := elem;
    }

    /**
     * `RemoveIndex(index)`: swap-with-last removal. Index `index` must be below
     * the length, as the source leaves anything else undefined.
     */
    method RemoveIndex(index: nat)
      requires Valid() && index < length
      modifies this, data
      ensures Valid() && data == old(data) && capacity == old(capacity)
      ensures Contents() == SwapRemove(old(Contents()), index)
    {
      var lastIndex := length - 1;
      if index < lastIndex {
        data[index] := data[lastIndex];
      }
      length := length - 1;
    }

    /** `Remove(elem)`: swap-removes the first element equal to `elem`, if any. */
    method Remove(elem: T)
      requires Valid()
      modifies this, data
      ensures Valid() && data == old(data) && capacity == old(capacity)
      ensures Contents() == if elem in old(Contents()) then SwapRemove(old(Contents()), IndexOf(old(Contents()), elem)) else old(Contents())
    {
      var i := 0;
      while i < length
        invariant 0 <= i <= length
        invariant forall j :: 0 <= j < i ==> data[j] != elem
      {
        if data[i] == elem {
          assert Contents()[i] == elem;
          RemoveIndex(i);
          return;
        }
        i := i + 1;
      }
    }

    /** `Get(index)`: the element at `index`, which must be below the length. */
    method Get(index: nat) returns (r: T)
      requires Valid() && index < length
      ensures r == Contents()[index]
    {
      r := data[index];
    }

    /** `Last()`: the last element of a non-empty array. */
    method Last() returns (r: T)
      requires Valid() && length > 0
      ensures r == Contents()[|Contents()| - 1]
    {
      r := data[length - 1];
    }

    /** `Length()`. */
    method Length() returns (n: nat)
      requires Valid()
      ensures n == |Contents()|
    {
      n := length;
    }

    /** `Clear()`: empties the array and keeps its storage and capacity. */
    method Clear()
      requires Valid()
      modifies this
      ensures Valid() && Contents() == [] && capacity == old(capacity) && data == old(data)
    {
      length := 0;
    }

    /** `Clone(allocator)`: a new array with fresh storage of the same capacity and the same elements. */
    method Clone(allocator: LinearAllocatorPool) returns (r: DynamicArrayEx<T>)
      requires Valid() && allocator.Valid()
      modifies allocator.Repr
      ensures fresh(r) && fresh(r.data) && r.Valid()
      ensures r.capacity == capacity && r.layout == layout && r.Contents() == Contents()
      ensures allocator.Valid() && fresh(allocator.Repr - old(allocator.Repr))
    {
      r := new DynamicArrayEx(capacity, layout, allocator);
      r.length := length;
      forall i | 0 <= i < length {
        r.data[i] := data[i];
      }
    }

    /** `operator==`: the same length and pointwise equal elements. */
    method Equals(rhs: DynamicArrayEx<T>) returns (b: bool)
      requires Valid() && rhs.Valid()
      ensures b <==> Contents() == rhs.Contents()
    {
      if length != rhs.length {
        return false;
      }
      var i := 0;
      while i < length
        invariant 0 <= i <= length
        invariant data[..i] == rhs.data[..i]
      {
        if data[i] != rhs.data[i] {
          assert Contents()[i] != rhs.Contents()[i];
          return false;
        }
        i := i + 1;
      }
      assert data[..length] == rhs.data[..length];
      return true;
    }
  }
}
