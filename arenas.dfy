/**
 * Bump allocation (includes/ds.hpp: `LinearAllocator`, `LinearAllocatorPool`).
 * Raw memory is abstracted away: an arena is its capacity and its bump offset
 * `used`, and an allocation is identified by an arena index and a byte offset.
 */
module Arenas {
  import opened Wrappers

  /** `sizeof(T)` and `alignof(T)` of an element type; `alignof` is at least 1. */
  datatype Layout = Layout(size: nat, align: nat)

  /** Where an allocation lives in a pool: which arena, and the byte offset in its block. */
  datatype Address = Address(arena: nat, offset: nat)

  function Max(a: nat, b: nat): nat {
    if a < b then b else a
  }

  /** `used` rounded up to a multiple of `align` (the source's mask; equal for the power-of-two alignments `alignof` yields). */
  function AlignUp(used: nat, align: nat): nat
    requires align >= 1
  {
    (used + align - 1) / align * align
  }

  /** AlignUp gives the least multiple of `align` that is at least `used`. */
  lemma AlignUpIsLeastAlignedOffset(used: nat, align: nat)
    requires align >= 1
    ensures AlignUp(used, align) % align == 0
    ensures used <= AlignUp(used, align) < used + align
    ensures forall m: nat :: used <= m && m % align == 0 ==> AlignUp(used, align) <= m
  {
    var n := used + align - 1;
    var q := n / align;
    assert n == align * q + n % align;
    assert AlignUp(used, align) == q * align;
    MulModZero(q, align);
    forall m: nat | used <= m && m % align == 0
      ensures q * align <= m
    {
      AlignedBound(used, align, m);
    }
  }

  /** No multiple of `align` at least `used` lies below `AlignUp(used, align)`. */
  lemma AlignedBound(used: nat, align: nat, m: nat)
    requires align >= 1 && used <= m && m % align == 0
    ensures (used + align - 1) / align * align <= m
  {
    var q := (used + align - 1) / align;
    var k := m / align;
    assert used + align - 1 == align * q + (used + align - 1) % align;
    assert m == align * k + m % align;
    if k < q {
      MulMonotone(align, k, q - 1);
    }
  }

  /** A multiple of `a` leaves no remainder. */
  lemma MulModZero(q: nat, a: nat)
    requires a >= 1
    ensures (q * a) % a == 0
  {
    var x := q * a;
    var d := q - x / a;
    assert x == a * (x / a) + x % a;
    assert a * d == x % a;
    MulSign(a, d);
  }

  /** A non-zero multiple of `a` is at least `a` away from zero. */
  lemma MulSign(a: nat, d: int)
    ensures d >= 1 ==> a * d >= a
    ensures d <= -1 ==> a * d + a <= 0
  {
    if d >= 1 {
      MulMonotone(a, 1, d);
    } else if d <= -1 {
      MulMonotone(a, d, -1);
    }
  }

  lemma MulMonotone(a: nat, x: int, y: int)
    requires x <= y
    ensures a * x <= a * y
  {
    assert a * y - a * x == a * (y - x);
  }

  /**
   * The offset `LinearAllocator::Alloc` hands out for `items` elements of layout
   * `l` when the arena has bumped to `used`, or None when they do not fit.
   */
  function AllocOffset(used: nat, capacity: nat, l: Layout, items: nat): Option<nat>
    requires l.align >= 1
  {
    var aligned := AlignUp(used, l.align);
    if aligned + items * l.size > capacity then None else Some(aligned)
  }

  /**
   * A successful allocation is aligned, starts at or after `used` and ends
   * within the capacity; it fails exactly when the aligned request overflows.
   */
  lemma AllocOffsetSound(used: nat, capacity: nat, l: Layout, items: nat)
    requires l.align >= 1
    ensures AllocOffset(used, capacity, l, items).None? <==> AlignUp(used, l.align) + items * l.size > capacity
    ensures AllocOffset(used, capacity, l, items).Some? ==>
      var a := AllocOffset(used, capacity, l, items).value;
      a % l.align == 0 && used <= a < used + l.align && a + items * l.size <= capacity
  {
    AlignUpIsLeastAlignedOffset(used, l.align);
  }

  /** Two successive allocations from one arena never overlap. */
  lemma SuccessiveAllocationsDisjoint(used: nat, capacity: nat, l1: Layout, n1: nat, l2: Layout, n2: nat)
    requires l1.align >= 1 && l2.align >= 1
    requires AllocOffset(used, capacity, l1, n1).Some?
    requires AllocOffset(AllocOffset(used, capacity, l1, n1).value + n1 * l1.size, capacity, l2, n2).Some?
    ensures
      var a1 := AllocOffset(used, capacity, l1, n1).value;
      var a2 := AllocOffset(a1 + n1 * l1.size, capacity, l2, n2).value;
      used <= a1 && a1 + n1 * l1.size <= a2 && a2 + n2 * l2.size <= capacity
  {
    var a1 := AllocOffset(used, capacity, l1, n1).value;
    AlignUpIsLeastAlignedOffset(used, l1.align);
    AlignUpIsLeastAlignedOffset(a1 + n1 * l1.size, l2.align);
  }

  /** `LinearAllocator`: one block of `capacity` bytes, bump-allocated from offset 0. */
  class LinearAllocator {
    var used: nat
    const capacity: nat

    constructor (capacity: nat)
      ensures used == 0 && this.capacity == capacity
    {
      this.used := 0;
      this.capacity := capacity;
    }

    /** `Alloc<T>(items)`: bumps `used` past the aligned request, or fails and leaves `used` alone. */
    method Alloc(layout: Layout, items: nat) returns (r: Option<nat>)
      requires layout.align >= 1
      modifies this
      ensures r == AllocOffset(old(used), capacity, layout, items)
      ensures used == if r.Some? then r.value + items * layout.size else old(used)
      ensures old(used) <= used && (old(used) <= capacity ==> used <= capacity)
    {
      var bytes := layout.size * items;
      var alignedUp := AlignUp(used, layout.align);
      AlignUpIsLeastAlignedOffset(used, layout.align);
      var newUsed := alignedUp + bytes;
      if newUsed > capacity {
        return None;
      }
      used := newUsed;
      r := Some(alignedUp);
    }

    /** `Realloc<T>(data, old, new)`: a fresh allocation of `newCapacity` elements (the byte copy is not modelled here). */
    method Realloc(layout: Layout, oldCapacity: nat, newCapacity: nat) returns (r: Option<nat>)
      requires layout.align >= 1
      modifies this
      ensures r == AllocOffset(old(used), capacity, layout, newCapacity)
      ensures used == if r.Some? then r.value + newCapacity * layout.size else old(used)
    {
      r := Alloc(layout, newCapacity);
    }
  }

  /**
   * `LinearAllocatorPool`: an ordered list of arenas whose last one is active.
   * When the active arena cannot take a request, one arena is appended and
   * the request is retried there.
   */
  class LinearAllocatorPool {
    var arenas: seq<LinearAllocator>
    const allocationSize: nat
    ghost var Repr: set<object>

    ghost predicate Valid()
      reads this, Repr
    {
      && this in Repr
      && |arenas| >= 1
      && (forall i :: 0 <= i < |arenas| ==> arenas[i] in Repr)
      && (forall o: object :: o in Repr ==> o == this || o is LinearAllocator)
      && (forall i, j :: 0 <= i < j < |arenas| ==> arenas[i] != arenas[j])
      && (forall i :: 0 <= i < |arenas| ==> arenas[i].used <= arenas[i].capacity)
    }

    /** The active arena. */
    function Active(): LinearAllocator
      reads this
      requires |arenas| >= 1
    {
      arenas[|arenas| - 1]
    }

    /** `LinearAllocatorPool(allocation_size)`: starts with exactly one empty arena of that size. */
    constructor (allocationSize: nat)
      ensures Valid() && fresh(Repr)
      ensures this.allocationSize == allocationSize
      ensures |arenas| == 1 && arenas[0].capacity == allocationSize && arenas[0].used == 0
    {
      this.allocationSize := allocationSize;
      var first := new LinearAllocator(allocationSize);
      arenas := [first];
      Repr := {this, first};
    }

    /**
     * `Alloc<T>(items)`: the active arena serves the request if it fits;
     * otherwise exactly one arena of `max(allocation_size, bytes)` is appended
     * and the retry there succeeds at offset 0. No other arena changes.
     */
    method Alloc(layout: Layout, items: nat) returns (addr: Address)
      requires Valid() && layout.align >= 1
      modifies Repr
      ensures Valid() && fresh(Repr - old(Repr))
      ensures |arenas| >= |old(arenas)| && arenas[..|old(arenas)|] == old(arenas)
      ensures addr.arena == |arenas| - 1 && addr.offset % layout.align == 0
      ensures Active().used == addr.offset + items * layout.size
      ensures
        var fit := AllocOffset(old(Active().used), old(Active().capacity), layout, items);
        if fit.Some? then
          arenas == old(arenas) && addr.offset == fit.value
        else
          && |arenas| == |old(arenas)| + 1
          && arenas[..|old(arenas)|] == old(arenas)
          && fresh(Active())
          && Active().capacity == Max(allocationSize, items * layout.size)
          && addr.offset == 0
      ensures forall i :: 0 <= i < |old(arenas)| && i != addr.arena ==> arenas[i].used == old(arenas[i].used)
    {
      var active := arenas[|arenas| - 1];
      var data := active.Alloc(layout, items);
      AllocOffsetSound(old(active.used), active.capacity, layout, items);
      if data.Some? {
        return Address(|arenas| - 1, data.value);
      }
      var askedFor := layout.size * items;
      var grown: LinearAllocator;
      if askedFor > allocationSize {
        grown := new LinearAllocator(askedFor);
      } else {
        grown := new LinearAllocator(allocationSize);
      }
      arenas := arenas + [grown];
      Repr := Repr + {grown};
      assert AlignUp(0, layout.align) == 0;
      var retry := grown.Alloc(layout, items);
      addr := Address(|arenas| - 1, retry.value);
    }

    /**
     * `Realloc<T>(data, old, new)`: a pool allocation of `newCapacity` elements, in
     * the active arena when it fits and otherwise in one appended arena; the copy
     * belongs to the caller's storage.
     */
    method Realloc(layout: Layout, oldCapacity: nat, newCapacity: nat) returns (addr: Address)
      requires Valid() && layout.align >= 1
      modifies Repr
      ensures Valid() && fresh(Repr - old(Repr))
      ensures |arenas| >= |old(arenas)| && arenas[..|old(arenas)|] == old(arenas)
      ensures addr.arena == |arenas| - 1 && addr.offset % layout.align == 0
      ensures Active().used == addr.offset + newCapacity * layout.size
      ensures
        var fit := AllocOffset(old(Active().used), old(Active().capacity), layout, newCapacity);
        if fit.Some? then
          arenas == old(arenas) && addr.offset == fit.value
        else
          && |arenas| == |old(arenas)| + 1
          && fresh(Active())
          && Active().capacity == Max(allocationSize, newCapacity * layout.size)
          && addr.offset == 0
      ensures forall i :: 0 <= i < |old(arenas)| && i != addr.arena ==> arenas[i].used == old(arenas[i].used)
    {
      addr := Alloc(layout, newCapacity);
    }
  }
}
