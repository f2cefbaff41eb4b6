/**
 * `StringEx<A>` and its djb2 hash (includes/ds.hpp): a growable array of
 * `char` with a C-string view. A C `char` is one signed byte; a Dafny `char`
 * stands for the byte given by its low eight bits.
 */
module Strings {
  import opened Arenas
  import opened DynamicArrays
  import opened CStrings

  const CharLayout: Layout := Layout(1, 1)

  /** The initial capacity both `StringEx` constructors give the character array. */
  const InitialCapacity: nat := 10

  /** Width of `unsigned long` on the target (Windows, LLP64): 32 bits. */
  const HashModulus: nat := 0x1_0000_0000

  /** The value of a `char` promoted to `int`: its byte, read as signed. */
  function CharCode(c: char): int {
    var b := (c as int) % 256;
    if b >= 128 then b - 256 else b
  }

  /** One round of djb2: `hash = ((hash << 5) + hash) + c` in `unsigned long` arithmetic. */
  function Djb2Step(h: nat, c: char): nat {
    (h * 33 + CharCode(c)) % HashModulus
  }

  /** The djb2 hash of a character sequence: the fold of `Djb2Step` from 5381. */
  function Djb2(s: string): (h: nat)
    ensures h < HashModulus
    ensures s == [] ==> h == 5381
  {
    if s == [] then 5381 else Djb2Step(Djb2(s[..|s| - 1]), s[|s| - 1])
  }

  /** Appending a character performs exactly one more round. */
  lemma {:induction false} Djb2Snoc(s: string, c: char)
    ensures Djb2(s + [c]) == Djb2Step(Djb2(s), c)
  {
    assert (s + [c])[..|s|] == s;
  }

  class StringEx {
    var chars: DynamicArrayEx<char>

    ghost predicate Valid()
      reads this, chars
    {
      chars.Valid() && chars.layout == CharLayout
    }

    /** The characters, without any terminator. */
    ghost function Contents(): string
      reads this, chars, chars.data
      requires Valid()
    {
      chars.Contents()
    }

    /** `StringEx(allocator)`: empty, with room for `InitialCapacity` characters. */
    constructor (allocator: LinearAllocatorPool)
      requires allocator.Valid()
      modifies allocator.Repr
      ensures Valid() && fresh(chars) && fresh(chars.data)
      ensures Contents() == [] && chars.capacity == InitialCapacity
      ensures allocator.Valid() && fresh(allocator.Repr - old(allocator.Repr))
    {
      chars := new DynamicArrayEx(InitialCapacity, CharLayout, allocator);
    }

    /** `StringEx(c_str, allocator)`: pushes every character of the C string up to its NUL. */
    constructor FromCStr(cStr: seq<char>, start: nat, allocator: LinearAllocatorPool)
      requires Terminated(cStr, start) && allocator.Valid()
      modifies allocator.Repr
      ensures Valid() && fresh(chars) && fresh(chars.data)
      ensures Contents() == cStr[start..Terminator(cStr, start)]
      ensures allocator.Valid() && fresh(allocator.Repr - old(allocator.Repr))
    {
      var arr := new DynamicArrayEx(InitialCapacity, CharLayout, allocator);
      var iter := start;
      while cStr[iter] != NUL
        invariant start <= iter <= Terminator(cStr, start)
        invariant fresh(arr) && fresh(arr.data) && arr.Valid() && arr.layout == CharLayout
        invariant arr.Contents() == cStr[start..iter]
        invariant allocator.Valid() && fresh(allocator.Repr - old(allocator.Repr))
        decreases Terminator(cStr, start) - iter
      {
        arr.Push(cStr[iter], allocator);
        iter := iter + 1;
      }
      chars := arr;
    }

    /**
     * `CStr(allocator)`: makes room for one more character if the array is
     * full, writes NUL just past the last character without changing the
     * length, and yields the characters followed by that NUL.
     */
    method CStr(allocator: LinearAllocatorPool) returns (cStr: string)
      requires Valid() && allocator.Valid()
      modifies chars, chars.data, allocator.Repr
      ensures Valid() && Contents() == old(Contents())
      ensures chars.length < chars.capacity && chars.data[chars.length] == NUL
      ensures chars.capacity == if old(chars.length) >= old(chars.capacity) then old(chars.capacity) + 1 else old(chars.capacity)
      ensures cStr == Contents() + [NUL]
      ensures Terminated(cStr, 0) && Terminator(cStr, 0) <= |Contents()|
      ensures NUL !in Contents() ==> Terminator(cStr, 0) == |Contents()|
      ensures allocator.Valid() && fresh(allocator.Repr - old(allocator.Repr))
    {
      if chars.length >= chars.capacity {
        chars.IncreaseCapacity(chars.capacity + 1, allocator);
      }
      chars.Put(NUL, chars.length);
      cStr := chars.data[..chars.length + 1];
      assert cStr[|cStr| - 1] == NUL;
      assert NUL in cStr[0..];
      if NUL !in Contents() {
        assert forall k :: 0 <= k < chars.length ==> cStr[k] == Contents()[k];
      }
    }

    /** `operator==`: the same characters. */
    method Equals(rhs: StringEx) returns (b: bool)
      requires Valid() && rhs.Valid()
      ensures b <==> Contents() == rhs.Contents()
    {
      b := chars.Equals(rhs.chars);
    }
  }

  /** `std::hash<StringEx<A>>`: djb2 over the characters. */
  method Hash(s: StringEx) returns (h: nat)
    requires s.Valid()
    ensures h == Djb2(s.Contents())
  {
    h := 5381;
    var i := 0;
    while i < s.chars.length
      invariant 0 <= i <= s.chars.length
      invariant h == Djb2(s.Contents()[..i])
    {
      var c := s.chars.Get(i);
      Djb2Snoc(s.Contents()[..i], c);
      assert s.Contents()[..i + 1] == s.Contents()[..i] + [c];
      h := (h * 33 + CharCode(c)) % HashModulus;
      i := i + 1;
    }
    assert s.Contents()[..i] == s.Contents();
  }
}
