/**
 * `HashMapEx<K, V, A>` (includes/ds.hpp): separate chaining over `capacity`
 * buckets. Each bucket, a `DynamicArrayEx` of key/value pairs in the source, is
 * modelled by the sequence of its elements; `std::hash<K>` is the function
 * `hash` the map is built with. The ghost map `Contents` is the abstract value.
 */
module HashMaps {
  import opened Wrappers
  import opened Arenas
  import opened DynamicArrays

  datatype KeyValuePair<K, V> = KeyValuePair(key: K, value: V)

  /** Where an entry lives: bucket and index in it (the source hands out a pointer instead). */
  datatype EntryRef = EntryRef(slot: nat, index: nat)

  /** The first index of `bucket` holding `key`, as the bucket scans find it. */
  function Lookup<K(==), V>(bucket: seq<KeyValuePair<K, V>>, key: K): (r: Option<nat>)
    ensures r.Some? ==> r.value < |bucket| && bucket[r.value].key == key
    ensures r.Some? ==> forall j :: 0 <= j < r.value ==> bucket[j].key != key
    ensures r.None? ==> forall j :: 0 <= j < |bucket| ==> bucket[j].key != key
  {
    if |bucket| == 0 then None
    else if bucket[0].key == key then Some(0)
    else match Lookup(bucket[1..], key)
      case None => None
      case Some(i) => Some(i + 1)
  }

  /** No key occurs twice in a bucket. */
  ghost predicate UniqueKeys<K, V>(bucket: seq<KeyValuePair<K, V>>) {
    forall i, j :: 0 <= i < j < |bucket| ==> bucket[i].key != bucket[j].key
  }

  /** In a bucket without duplicates, the entry at `i` is the one the scan finds for its key. */
  lemma LookupUnique<K, V>(bucket: seq<KeyValuePair<K, V>>, i: nat)
    requires UniqueKeys(bucket) && i < |bucket|
    ensures Lookup(bucket, bucket[i].key) == Some(i)
  {
  }

  /**
   * The expansion test at line 567, `length / capacity > 0.85`, divides
   * integers: it holds exactly when the map holds at least `capacity` entries.
   */
  function ExpandDue(length: nat, capacity: nat): bool
    requires capacity >= 1
  {
    (length / capacity) as real > 0.85
  }

  lemma ExpandDueIsFullLoad(length: nat, capacity: nat)
    requires capacity >= 1
    ensures ExpandDue(length, capacity) <==> length >= capacity
  {
    var q := length / capacity;
    assert length == capacity * q + length % capacity;
    if q >= 1 {
      MulMonotone(capacity, 1, q);
    } else {
      assert q == 0;
    }
  }

  lemma LookupSameKeys<K, V>(b1: seq<KeyValuePair<K, V>>, b2: seq<KeyValuePair<K, V>>, key: K)
    requires |b1| == |b2| && forall j :: 0 <= j < |b1| ==> b1[j].key == b2[j].key
    ensures Lookup(b1, key) == Lookup(b2, key)
  {
  }

  lemma {:induction false} LookupAppend<K, V>(bucket: seq<KeyValuePair<K, V>>, e: KeyValuePair<K, V>, key: K)
    ensures Lookup(bucket + [e], key) ==
      if Lookup(bucket, key).Some? then Lookup(bucket, key) else if e.key == key then Some(|bucket|) else None
  {
    if |bucket| > 0 && bucket[0].key != key {
      assert (bucket + [e])[1..] == bucket[1..] + [e];
      LookupAppend(bucket[1..], e, key);
    }
  }

  /** A measure for the mutual recursion between `Set` and `Expand`. */
  function Potential(length: nat, capacity: nat): nat {
    if length + 1 >= capacity then length + 1 - capacity else 0
  }

  lemma SubsetCardinality<T>(a: set<T>, b: set<T>)
    requires a <= b
    ensures |a| <= |b|
  {
    if a != {} {
      var x :| x in a;
      SubsetCardinality(a - {x}, b - {x});
    }
  }

  /** The bucket `key` belongs to among `n` buckets. */
  function SlotOf<K>(hash: K -> nat, key: K, n: nat): (b: nat)
    requires n >= 1
    ensures b < n
  {
    hash(key) % n
  }

  /** The value a bucket holds for `key`, as a scan of the bucket finds it. */
  function BucketGet<K(==), V>(bucket: seq<KeyValuePair<K, V>>, key: K): Option<V> {
    match Lookup(bucket, key)
    case None => None
    case Some(i) => Some(bucket[i].value)
  }

  /** The value `key`'s bucket holds for it. */
  function Entry<K(==), V>(buckets: seq<seq<KeyValuePair<K, V>>>, hash: K -> nat, key: K): Option<V>
    requires |buckets| >= 1
  {
    BucketGet(buckets[SlotOf(hash, key, |buckets|)], key)
  }

  /**
   * Swap-removing the entry at `i` from a bucket without duplicate keys
   * forgets exactly that entry's key and keeps every other key's value.
   */
  lemma SwapRemoveBucket<K, V>(bucket: seq<KeyValuePair<K, V>>, i: nat, key: K)
    requires UniqueKeys(bucket) && i < |bucket|
    ensures UniqueKeys(SwapRemove(bucket, i))
    ensures forall j :: 0 <= j < |SwapRemove(bucket, i)| ==> SwapRemove(bucket, i)[j] in bucket
    ensures BucketGet(SwapRemove(bucket, i), key) == if key == bucket[i].key then None else BucketGet(bucket, key)
  {
    var removed := SwapRemove(bucket, i);
    var last := |bucket| - 1;
    SwapRemoveSpec(bucket, i);
    // Position `p` of the result holds the entry that was at `Origin(p)`.
    var origin := (p: nat) => if p == i then last else p;
    assert forall p :: 0 <= p < |removed| ==> origin(p) < |bucket| && origin(p) != i && removed[p] == bucket[origin(p)];
    forall p, q | 0 <= p < q < |removed|
      ensures removed[p].key != removed[q].key
    {
      assert origin(p) != origin(q);
    }
    if Lookup(removed, key).Some? {
      LookupUnique(bucket, origin(Lookup(removed, key).value));
    }
  }

  /**
   * Separate chaining: every entry sits in its key's bucket, no bucket repeats
   * a key, and `contents` maps exactly the keys found in their buckets to the
   * values stored there.
   */
  ghost predicate Chained<K(!new), V>(buckets: seq<seq<KeyValuePair<K, V>>>, hash: K -> nat, contents: map<K, V>)
    requires |buckets| >= 1
  {
    && (forall b, i :: 0 <= b < |buckets| && 0 <= i < |buckets[b]| ==> SlotOf(hash, buckets[b][i].key, |buckets|) == b)
    && (forall b :: 0 <= b < |buckets| ==> UniqueKeys(buckets[b]))
    && (forall k :: Entry(buckets, hash, k) == Get(contents, k))
  }

  /** The value a map associates with `key`, if any. */
  function Get<K, V>(m: map<K, V>, key: K): Option<V> {
    if key in m then Some(m[key]) else None
  }

  /** What chaining says about one key: it is in `contents` exactly when its bucket scan finds it, with that value. */
  lemma ChainedLookup<K(!new), V>(buckets: seq<seq<KeyValuePair<K, V>>>, hash: K -> nat, contents: map<K, V>, key: K)
    requires |buckets| >= 1 && Chained(buckets, hash, contents)
    ensures var bucket := buckets[SlotOf(hash, key, |buckets|)];
      && (key in contents <==> Lookup(bucket, key).Some?)
      && (key in contents ==> contents[key] == bucket[Lookup(bucket, key).value].value)
  {
    assert Entry(buckets, hash, key) == Get(contents, key);
  }

  /** Swap-removing a present key from its bucket keeps the chaining. */
  lemma ChainedRemove<K(!new), V>(buckets: seq<seq<KeyValuePair<K, V>>>, hash: K -> nat, contents: map<K, V>,
                                  key: K, i: nat)
    requires |buckets| >= 1 && Chained(buckets, hash, contents)
    requires Lookup(buckets[SlotOf(hash, key, |buckets|)], key) == Some(i)
    ensures var slot := SlotOf(hash, key, |buckets|);
      Chained(buckets[slot := SwapRemove(buckets[slot], i)], hash, contents - {key})
  {
    var slot := SlotOf(hash, key, |buckets|);
    var removed: seq<KeyValuePair<K, V>> := SwapRemove(buckets[slot], i);
    var after: seq<seq<KeyValuePair<K, V>>> := buckets[slot := removed];
    var contents' := contents - {key};
    forall k
      ensures Entry(after, hash, k) == Get(contents', k)
    {
      assert Entry(buckets, hash, k) == Get(contents, k);
      if SlotOf(hash, k, |buckets|) == slot {
        SwapRemoveBucket(buckets[slot], i, k);
      }
    }
    SwapRemoveBucket(buckets[slot], i, key);
    forall b: nat, j: nat | b < |after| && j < |after[b]|
      ensures SlotOf(hash, after[b][j].key, |after|) == b
    {
      if b == slot {
        var p :| 0 <= p < |buckets[slot]| && buckets[slot][p] == after[b][j];
      }
    }
  }

  /** Overwriting the value of a present key in place keeps the chaining. */
  lemma ChainedOverwrite<K(!new), V>(buckets: seq<seq<KeyValuePair<K, V>>>, hash: K -> nat, contents: map<K, V>,
                                     key: K, i: nat, value: V)
    requires |buckets| >= 1 && Chained(buckets, hash, contents)
    requires Lookup(buckets[SlotOf(hash, key, |buckets|)], key) == Some(i)
    ensures var slot := SlotOf(hash, key, |buckets|);
      Chained(buckets[slot := buckets[slot][i := KeyValuePair(key, value)]], hash, contents[key := value])
  {
    var slot := SlotOf(hash, key, |buckets|);
    var updated := buckets[slot][i := KeyValuePair(key, value)];
    var result := buckets[slot := updated];
    var contents' := contents[key := value];
    forall k
      ensures Entry(result, hash, k) == Get(contents', k)
    {
      assert Entry(buckets, hash, k) == Get(contents, k);
      if SlotOf(hash, k, |buckets|) == slot {
        LookupSameKeys(updated, buckets[slot], k);
      }
    }
    assert forall b :: 0 <= b < |result| ==> UniqueKeys(result[b]);
  }

  /** Appending an absent key to its bucket keeps the chaining. */
  lemma ChainedAppend<K(!new), V>(buckets: seq<seq<KeyValuePair<K, V>>>, hash: K -> nat, contents: map<K, V>,
                                  key: K, value: V)
    requires |buckets| >= 1 && Chained(buckets, hash, contents)
    requires key !in contents
    ensures var slot := SlotOf(hash, key, |buckets|);
      Chained(buckets[slot := buckets[slot] + [KeyValuePair(key, value)]], hash, contents[key := value])
  {
    var slot := SlotOf(hash, key, |buckets|);
    var appended := buckets[slot] + [KeyValuePair(key, value)];
    var result := buckets[slot := appended];
    var contents' := contents[key := value];
    ChainedLookup(buckets, hash, contents, key);
    forall k
      ensures Entry(result, hash, k) == Get(contents', k)
    {
      assert Entry(buckets, hash, k) == Get(contents, k);
      if SlotOf(hash, k, |buckets|) == slot {
        LookupAppend(buckets[slot], KeyValuePair(key, value), k);
      }
    }
    assert UniqueKeys(appended);
  }

  class HashMapEx<K(==,!new), V> {
    var buckets: seq<seq<KeyValuePair<K, V>>>
    var capacity: nat
    var length: nat
    /** `std::hash<K>`. */
    const hash: K -> nat
    /** The value `V()` that `GetPtrOrDefault` inserts. */
    const defaultValue: V
    ghost var Contents: map<K, V>

    /** The bucket index of `key`: `hash(key) % capacity`. */
    function Slot(key: K): nat
      reads this
      requires capacity >= 1
    {
      SlotOf(hash, key, capacity)
    }

    ghost predicate Valid()
      reads this
    {
      && capacity >= 1
      && |buckets| == capacity
      && Chained(buckets, hash, Contents)
      && length == |Contents|
    }

    /** `HashMapEx(capacity, allocator)`: `capacity` empty buckets. */
    constructor (capacity: nat, hash: K -> nat, defaultValue: V)
      requires capacity >= 1
      ensures Valid() && Contents == map[] && length == 0
      ensures this.capacity == capacity && this.hash == hash && this.defaultValue == defaultValue
    {
      this.capacity := capacity;
      this.length := 0;
      this.hash := hash;
      this.defaultValue := defaultValue;
      this.buckets := seq(capacity, _ => []);
      this.Contents := map[];
    }

    /** The scan of `key`'s bucket shared by every operation: the index of `key` there, if present. */
    method Find(key: K) returns (r: Option<nat>)
      requires Valid()
      ensures r == Lookup(buckets[Slot(key)], key)
      ensures r.Some? <==> key in Contents
      ensures r.Some? ==> buckets[Slot(key)][r.value] == KeyValuePair(key, Contents[key])
    {
      ChainedLookup(buckets, hash, Contents, key);
      var bucket := buckets[hash(key) % capacity];
      var i := 0;
      while i < |bucket|
        invariant 0 <= i <= |bucket|
        invariant forall j :: 0 <= j < i ==> bucket[j].key != key
      {
        if bucket[i].key == key {
          return Some(i);
        }
        i := i + 1;
      }
      return None;
    }

    /** `GetPtr(key)`: where `key`'s entry is, holding its current value; None when absent. */
    method GetPtr(key: K) returns (r: Option<EntryRef>)
      requires Valid()
      ensures r.Some? <==> key in Contents
      ensures r.Some? ==>
        && r.value.slot == Slot(key) && r.value.index < |buckets[r.value.slot]|
        && buckets[r.value.slot][r.value.index] == KeyValuePair(key, Contents[key])
    {
      var found := Find(key);
      if found.Some? {
        r := Some(EntryRef(hash(key) % capacity, found.value));
      } else {
        r := None;
      }
    }

    /**
     * `GetPtrOrDefault(key)`: where `key`'s entry is, first appending the
     * entry `(key, V())` to its bucket when the key is absent. Unlike `Set`,
     * it never expands the map, whatever the load.
     */
    method GetPtrOrDefault(key: K) returns (r: EntryRef)
      requires Valid()
      modifies this
      ensures Valid() && capacity == old(capacity)
      ensures Contents == if key in old(Contents) then old(Contents) else old(Contents)[key := defaultValue]
      ensures length == old(length) + (if key in old(Contents) then 0 else 1)
      ensures r.slot == Slot(key) && r.index < |buckets[r.slot]|
      ensures buckets[r.slot][r.index] == KeyValuePair(key, Contents[key])
    {
      var slot := hash(key) % capacity;
      var found := Find(key);
      if found.Some? {
        return EntryRef(slot, found.value);
      }
      ChainedAppend(buckets, hash, Contents, key, defaultValue);
      length := length + 1;
      r := EntryRef(slot, |buckets[slot]|);
      buckets := buckets[slot := buckets[slot] + [KeyValuePair(key, defaultValue)]];
      Contents := Contents[key := defaultValue];
    }

    /** `Remove(key)`: swap-removes `key`'s entry from its bucket; nothing happens when it is absent. */
    method Remove(key: K)
      requires Valid()
      modifies this
      ensures Valid() && capacity == old(capacity)
      ensures Contents == old(Contents) - {key}
      ensures length == old(length) - (if key in old(Contents) then 1 else 0)
    {
      var slot := hash(key) % capacity;
      var found := Find(key);
      if found.Some? {
        ChainedRemove(buckets, hash, Contents, key, found.value);
        buckets := buckets[slot := SwapRemove(buckets[slot], found.value)];
        length := length - 1;
        Contents := Contents - {key};
      } else {
        assert Contents - {key} == Contents;
      }
    }

    /** `Clone()`: a new map with the same buckets, each bucket copied. */
    method Clone() returns (r: HashMapEx<K, V>)
      requires Valid()
      ensures fresh(r) && r.Valid()
      ensures r.buckets == buckets && r.capacity == capacity && r.length == length
      ensures r.Contents == Contents && r.hash == hash && r.defaultValue == defaultValue
    {
      r := new HashMapEx(capacity, hash, defaultValue);
      r.buckets := buckets;
      r.length := length;
      r.Contents := Contents;
    }

    /**
     * `Set(key, value)`: replaces the value of a present key, or appends a new
     * entry to its bucket and then expands when the map has become full.
     */
    method Set(key: K, value: V)
      requires Valid()
      modifies this
      ensures Valid()
      ensures Contents == old(Contents)[key := value]
      ensures length == old(length) + (if key in old(Contents) then 0 else 1)
      ensures key in old(Contents) || !ExpandDue(old(length) + 1, old(capacity)) ==> capacity == old(capacity)
      ensures key !in old(Contents) && ExpandDue(old(length) + 1, old(capacity)) ==>
        capacity >= 2 * old(capacity) && (old(length) + 1 < 2 * old(capacity) ==> capacity == 2 * old(capacity))
      decreases Potential(length + 1, capacity), 3
    {
      var slot := hash(key) % capacity;
      var found := Find(key);
      var bucket := buckets[slot];
      if found.Some? {
        ChainedOverwrite(buckets, hash, Contents, key, found.value, value);
        buckets := buckets[slot := bucket[found.value := KeyValuePair(key, value)]];
        Contents := Contents[key := value];
        return;
      }
      ChainedAppend(buckets, hash, Contents, key, value);
      length := length + 1;
      buckets := buckets[slot := bucket + [KeyValuePair(key, value)]];
      Contents := Contents[key := value];
      ExpandDueIsFullLoad(length, capacity);
      if ExpandDue(length, capacity) {
        Expand();
      }
    }

    /**
     * `Expand()`: rebuilds the map with twice the buckets, then takes the
     * rebuilt map's state. Only `Set` calls it, once the map is full.
     */
    method Expand()
      requires Valid() && capacity <= length
      modifies this
      ensures Valid() && Contents == old(Contents) && length == old(length)
      ensures capacity >= 2 * old(capacity)
      ensures old(length) < 2 * old(capacity) ==> capacity == 2 * old(capacity)
      decreases Potential(length, capacity), 2
    {
      var rebuilt := Rebuild();
      ghost var c := rebuilt.Contents;
      var nb := rebuilt.buckets;
      assert Chained(nb, hash, c);
      buckets, capacity, length, Contents := nb, rebuilt.capacity, rebuilt.length, c;
      assert Chained(buckets, hash, Contents);
    }

    /**
     * The loop of `Expand`: a fresh map with `2 * capacity` buckets into which
     * every entry is `Set`, bucket by bucket.
     */
    method Rebuild() returns (rebuilt: HashMapEx<K, V>)
      requires Valid() && capacity <= length
      ensures fresh(rebuilt) && rebuilt.Valid() && rebuilt.hash == hash
      ensures rebuilt.Contents == Contents && rebuilt.length == length
      ensures rebuilt.capacity >= 2 * capacity
      ensures length < 2 * capacity ==> rebuilt.capacity == 2 * capacity
      decreases Potential(length, capacity), 1
    {
      rebuilt := new HashMapEx(2 * capacity, hash, defaultValue);
      var b := 0;
      while b < capacity
        invariant 0 <= b <= capacity
        invariant fresh(rebuilt) && rebuilt.Valid() && rebuilt.hash == hash
        invariant rebuilt.capacity >= 2 * capacity
        invariant length < 2 * capacity ==> rebuilt.capacity == 2 * capacity
        invariant rebuilt.Contents == MovedContents(b, 0)
      {
        MoveBucket(b, rebuilt);
        b := b + 1;
      }
      AllMoved();
    }

    /** One pass of the outer loop of `Expand`: `Set` every entry of bucket `b` into `rebuilt`. */
    method MoveBucket(b: nat, rebuilt: HashMapEx<K, V>)
      requires Valid() && capacity <= length && b < capacity
      requires rebuilt != this && rebuilt.Valid() && rebuilt.hash == hash
      requires rebuilt.capacity >= 2 * capacity
      requires length < 2 * capacity ==> rebuilt.capacity == 2 * capacity
      requires rebuilt.Contents == MovedContents(b, 0)
      modifies rebuilt
      ensures rebuilt.Valid() && rebuilt.hash == hash
      ensures rebuilt.capacity >= 2 * capacity
      ensures length < 2 * capacity ==> rebuilt.capacity == 2 * capacity
      ensures rebuilt.Contents == MovedContents(b + 1, 0)
      decreases Potential(length, capacity), 0
    {
      var bucket := buckets[b];
      var j := 0;
      while j < |bucket|
        invariant 0 <= j <= |bucket|
        invariant rebuilt.Valid() && rebuilt.hash == hash
        invariant rebuilt.capacity >= 2 * capacity
        invariant length < 2 * capacity ==> rebuilt.capacity == 2 * capacity
        invariant rebuilt.Contents == MovedContents(b, j)
      {
        var entry := bucket[j];
        MoveOne(b, j);
        ExpandDueIsFullLoad(rebuilt.length + 1, rebuilt.capacity);
        rebuilt.Set(entry.key, entry.value);
        j := j + 1;
      }
      BucketMoved(b);
    }

    /** During `Expand`: the entries re-inserted before position `j` of bucket `b`. */
    ghost function MovedContents(b: nat, j: nat): map<K, V>
      reads this
      requires Valid()
    {
      map k | k in Contents && Moved(k, b, j) :: Contents[k]
    }

    /** Re-inserting entry `j` of bucket `b` adds it, and it was not there yet. */
    lemma MoveOne(b: nat, j: nat)
      requires Valid() && b < capacity && j < |buckets[b]|
      ensures var e := buckets[b][j];
        && e.key in Contents && e.key !in MovedContents(b, j)
        && |MovedContents(b, j)| < |Contents|
        && MovedContents(b, j + 1) == MovedContents(b, j)[e.key := e.value]
    {
      var e := buckets[b][j];
      LookupUnique(buckets[b], j);
      assert Slot(e.key) == b;
      ChainedLookup(buckets, hash, Contents, e.key);
      assert e.key in Contents && Contents[e.key] == e.value;
      assert !Moved(e.key, b, j);
      forall k
        ensures Moved(k, b, j + 1) <==> Moved(k, b, j) || k == e.key
      {
      }
      assert MovedContents(b, j + 1) == MovedContents(b, j)[e.key := e.value];
      SubsetCardinality(MovedContents(b, j).Keys, Contents.Keys - {e.key});
    }

    /** Once bucket `b` is exhausted, the next bucket starts from the same map. */
    lemma BucketMoved(b: nat)
      requires Valid() && b < capacity
      ensures MovedContents(b, |buckets[b]|) == MovedContents(b + 1, 0)
    {
      forall k | k in Contents
        ensures Moved(k, b, |buckets[b]|) <==> Moved(k, b + 1, 0)
      {
        ChainedLookup(buckets, hash, Contents, k);
      }
    }

    /** After the last bucket, every entry has been re-inserted. */
    lemma AllMoved()
      requires Valid()
      ensures MovedContents(capacity, 0) == Contents
    {
    }

    /** During `Expand`: `key` has been re-inserted before position `j` of bucket `b`. */
    ghost predicate Moved(key: K, b: nat, j: nat)
      reads this
      requires Valid()
    {
      Slot(key) < b || (Slot(key) == b && Lookup(buckets[b], key).Some? && Lookup(buckets[b], key).value < j)
    }
  }
}
