# asg-draw core in Dafny

This project models the data-structure and layout core of asg-draw. asg-draw
reads SVG drawings and packs the rectangles it finds into stock sheets for
cutting.

- **Allocators** (`Arenas`). `LinearAllocator` is a bump allocator over one
  block. `LinearAllocatorPool` is a list of such arenas whose last one is
  active. When a request does not fit, the pool appends exactly one arena of
  `max(allocation_size, bytes)` bytes and retries there. Memory is abstract:
  an allocation is an arena index plus a byte offset.
- **Containers**. `DynamicArrays` models `DynamicArrayEx`, a class over a
  Dafny `array` that grows by `2 * capacity + 1` and removes by swapping in
  the last element. `Strings` models `StringEx` (a character array with a C
  string view) and its djb2 hash in 32-bit `unsigned long` arithmetic.
  `HashMaps` models `HashMapEx`, separate chaining over `capacity` buckets,
  with a ghost `Contents` map as its abstract value.
- **Geometry**. `Vectors` covers `Vec2` and its `+`, `-`, `+=` and `-=`
  operators and the Direct2D point conversion. `Shapes` covers the `Rect`,
  `Text`, `Line` and `Circle` constructors and accessors.
- **Scanning**. `CStrings` models `FindChar` and `SkipChar` over
  NUL-terminated text. `SvgChars` models the SVG character classes and
  `EatWhitespace`.
- **Bin packing** (`BinPacking`). `PackBins`, `FindNextAvailableArea`, `Place`
  and `SplitVertical` form a guillotine packer. Each bin keeps a list of free
  areas. Placing an item at a free area's corner splits that area into the
  part below the item and the part to its right.
  - The packer is a class (`Packer`) whose methods update bins, free areas and
    per-entry usage counts in place. Each method is proved equal to a pure
    specification function (`Find`, `OpenBins`, `PlaceSpec`, `Pack`).
  - `Guillotine` proves the geometry of one split.
  - `PackingProperties` proves what the packer keeps: quotas, the multiset of
    placed ids, and where it stops.
  - `PackingSoundness` proves that a first-fit variant never overlaps two
    placements. It also proves when the code as written is safe: while at
    most one bin is open, or when the area comes from a bin just opened. It
    exhibits the inputs on which the code as written overlaps placements.

Floating-point values are modelled as `real` and sizes as `nat`.

## Model

| member | source | states |
|---|---|---|
| Vectors.D2PointRoundTrip | src/vec.cpp:3-8 | converting to a Direct2D point and back is the identity, in both directions |
| Vectors.AddSubInverse | src/vec.cpp:10-23 | `+` and `-` act componentwise, and subtracting `b` undoes adding `b` (and the reverse) |
| Vectors.Vec2Var.constructor | src/vec.cpp:3 | the vector holds the given components |
| Vectors.Vec2Var.AddAssign | src/vec.cpp:14-19 | `+=` makes the receiver the sum of the old values, returns the receiver itself, and leaves a distinct operand unchanged |
| Vectors.Vec2Var.SubAssign | src/vec.cpp:25-30 | `-=` makes the receiver the difference of the old values, returns the receiver itself, and leaves a distinct operand unchanged |
| Shapes.RectOfAccessors | src/shapes.cpp:3-28 | the four-number constructor stores position and size, and X/Left, Y/Top, Width and Height read them back |
| Shapes.RectExtents | src/shapes.cpp:22-36 | Right − Left is the width, Bottom − Top is the height, and X/Y agree with Left/Top |
| Shapes.ShapeConstructorsStore | src/shapes.cpp:38-56 | the Text, Line and Circle constructors store their coordinates, text and radius |
| CStrings.FindChar | src/utils.cpp:10-15 | returns the first position holding `ch` or the terminating NUL, never past the NUL, and the NUL itself when `ch` is absent |
| CStrings.SkipChar | src/utils.cpp:17-22 | returns one past the position FindChar finds, so one past the NUL when `ch` is absent |
| SvgChars.DigitsAreDecimal | src/svg.cpp:174-176 | IsDigit holds exactly for the ten characters `0`–`9` |
| SvgChars.LettersAreAscii | src/svg.cpp:170-172 | IsAlphabetical holds exactly for the 52 ASCII letters |
| SvgChars.FloatingPointCharsAreSignsDigitsAndPoint | src/svg.cpp:163-168 | IsFloatingPointChar holds exactly for digits, `+`, `-` and `.`; it excludes every letter, including the exponent letters `e` and `E` |
| SvgChars.EatWhitespace | src/svg.cpp:208-210 | advances over spaces only, stops at the first non-space, and never passes the NUL |
| SvgChars.EatWhitespaceStopsAtOtherBlanks | src/svg.cpp:208-210 | a tab, newline or carriage return is not skipped: the cursor stays where it is |
| Arenas.AlignUpIsLeastAlignedOffset | includes/ds.hpp:43-50 | the rounded offset is aligned, at least `used`, less than `used + align`, and no larger than any aligned offset at or after `used` |
| Arenas.AllocOffsetSound | includes/ds.hpp:43-62 | an allocation fails exactly when the aligned request overruns the capacity; otherwise it is aligned and lies within `[used, capacity]` |
| Arenas.SuccessiveAllocationsDisjoint | includes/ds.hpp:43-62 | two successive allocations from one arena do not overlap and both fit in it |
| Arenas.LinearAllocator.constructor | includes/ds.hpp:37-39 | a new arena is empty and has the requested capacity |
| Arenas.LinearAllocator.Alloc | includes/ds.hpp:43-62 | the result is the aligned offset or a failure; `used` moves past the allocation on success and is unchanged on failure; it never decreases or passes the capacity |
| Arenas.LinearAllocator.Realloc | includes/ds.hpp:64-72 | a reallocation is a fresh allocation of the new element count |
| Arenas.LinearAllocatorPool.constructor | includes/ds.hpp:341-346 | a new pool holds exactly one empty arena of the allocation size |
| Arenas.LinearAllocatorPool.Alloc | includes/ds.hpp:348-373 | the active arena serves a request that fits; otherwise exactly one fresh arena of `max(allocation_size, bytes)` is appended and serves it at offset 0; older arenas keep their state |
| Arenas.LinearAllocatorPool.Realloc | includes/ds.hpp:375-381 | a reallocation is a pool allocation of the new element count: at the aligned offset in the active arena when it fits, otherwise at offset 0 of exactly one fresh arena of `max(allocation_size, bytes)`; older arenas keep their state |
| DynamicArrays.SwapRemoveSpec | includes/ds.hpp:139-146 | swap-removal shortens by one, moves the last element into the hole, keeps every other element, and removes exactly one occurrence from the multiset |
| DynamicArrays.IndexOf | includes/ds.hpp:125-137 | the index Remove deletes is the first occurrence of the element |
| DynamicArrays.DynamicArrayEx.constructor | includes/ds.hpp:89-95 | an empty array with the requested capacity, allocated from the pool |
| DynamicArrays.DynamicArrayEx.Empty | includes/ds.hpp:97 | an empty array with no storage and capacity 0 |
| DynamicArrays.DynamicArrayEx.IncreaseCapacity | includes/ds.hpp:99-102 | the capacity becomes the requested one, the contents are kept, and the new block comes from the pool |
| DynamicArrays.DynamicArrayEx.Resize | includes/ds.hpp:104-109 | the length becomes `new_length`; the capacity grows to it only when needed and earlier data is kept |
| DynamicArrays.DynamicArrayEx.Push | includes/ds.hpp:111-119 | appends the element; a full array first grows to `2 * capacity + 1`, and otherwise storage and pool are untouched |
| DynamicArrays.DynamicArrayEx.Put | includes/ds.hpp:121-123 | writes one slot below the capacity without changing the length |
| DynamicArrays.DynamicArrayEx.RemoveIndex | includes/ds.hpp:139-146 | the contents become the swap-removal at the index; the storage is unchanged |
| DynamicArrays.DynamicArrayEx.Remove | includes/ds.hpp:125-137 | swap-removes the first occurrence of the element; an absent element changes nothing |
| DynamicArrays.DynamicArrayEx.Get | includes/ds.hpp:148-150 | returns the element at the index |
| DynamicArrays.DynamicArrayEx.Last | includes/ds.hpp:156-158 | returns the last element |
| DynamicArrays.DynamicArrayEx.Length | includes/ds.hpp:172-174 | returns the number of elements |
| DynamicArrays.DynamicArrayEx.Clear | includes/ds.hpp:181-183 | empties the array and keeps its storage |
| DynamicArrays.DynamicArrayEx.Clone | includes/ds.hpp:185-192 | a fresh array with the same capacity and contents |
| DynamicArrays.DynamicArrayEx.Equals | includes/ds.hpp:215-227 | true exactly when the two contents are equal |
| Strings.Djb2 | includes/ds.hpp:468-478 | the hash of a string is below 2^32, and the empty string hashes to 5381 |
| Strings.Djb2Snoc | includes/ds.hpp:472-475 | appending one character applies exactly one `hash * 33 + c` round |
| Strings.Hash | includes/ds.hpp:468-478 | the loop computes djb2 of the characters |
| Strings.StringEx.constructor | includes/ds.hpp:400 | an empty string with room for 10 characters |
| Strings.StringEx.FromCStr | includes/ds.hpp:401-407 | the string holds the C string's characters up to, but not including, its NUL |
| Strings.StringEx.CStr | includes/ds.hpp:420-427 | writes a NUL just past the characters without changing the contents; the capacity grows by exactly one slot when the array is full and is unchanged otherwise; the C view ends at the first NUL |
| Strings.StringEx.Equals | includes/ds.hpp:433-435 | true exactly when the characters are equal |
| HashMaps.Lookup | includes/ds.hpp:556-562 | the bucket scan finds the first entry with the key, or reports that none has it |
| HashMaps.LookupUnique | includes/ds.hpp:556-562 | in a bucket without duplicate keys, each entry is the one the scan finds for its key |
| HashMaps.ExpandDueIsFullLoad | includes/ds.hpp:567 | the load test holds exactly when `length >= capacity`, because it divides integers before comparing with 0.85 |
| HashMaps.SwapRemoveBucket | includes/ds.hpp:574-585 | swap-removing an entry keeps the keys unique and removes exactly that key's value |
| HashMaps.ChainedLookup | includes/ds.hpp:603-614 | a key is in the map exactly when its bucket's scan finds it, and then with the stored value |
| HashMaps.ChainedRemove | includes/ds.hpp:574-585 | swap-removing the found entry leaves a map chained to the contents minus that key |
| HashMaps.ChainedOverwrite | includes/ds.hpp:556-562 | overwriting the found entry's value leaves a map chained to the updated contents |
| HashMaps.ChainedAppend | includes/ds.hpp:564-565 | appending a new key to its bucket leaves a map chained to the extended contents |
| HashMaps.HashMapEx.constructor | includes/ds.hpp:506-511 | `capacity` empty buckets and an empty map |
| HashMaps.HashMapEx.Find | includes/ds.hpp:603-614 | finds the key's entry in its bucket exactly when the key is in the map |
| HashMaps.HashMapEx.GetPtr | includes/ds.hpp:603-614 | yields a reference exactly when the key is present, and it points at the key's entry |
| HashMaps.HashMapEx.GetPtrOrDefault | includes/ds.hpp:618-632 | returns the existing entry, or inserts `V()` for an absent key without expanding; the length grows only then |
| HashMaps.HashMapEx.Set | includes/ds.hpp:553-572 | the map becomes the old map with `key := value`; the length grows only for a new key; only a new key reaching full load expands the map, to at least twice its capacity |
| HashMaps.HashMapEx.Expand | includes/ds.hpp:587-600 | rehashing keeps contents and length and at least doubles the capacity (exactly doubles it when no nested expansion happens) |
| HashMaps.HashMapEx.Rebuild | includes/ds.hpp:588-597 | the rebuilt map holds the same contents under at least twice the capacity |
| HashMaps.HashMapEx.MoveBucket | includes/ds.hpp:590-596 | re-inserting one old bucket adds exactly that bucket's entries to the rebuilt map |
| HashMaps.HashMapEx.Remove | includes/ds.hpp:574-585 | the map loses the key and the length drops by one only when it was present |
| HashMaps.HashMapEx.Clone | includes/ds.hpp:646-659 | a fresh map with the same buckets, contents, capacity and length |
| BinPacking.Initial | src/bin_packing.cpp:14-18 | the state packing starts from: no bins and no free areas, and every menu entry used zero times |
| BinPacking.FirstFit | src/bin_packing.cpp:49-56 | within one bin, the first free area the item fits in, or none |
| BinPacking.LastBinFit | src/bin_packing.cpp:46-57 | the inner `break` leaves only the outer loop running, so the result is the first fitting area of the last bin that has one; no later bin has one |
| BinPacking.PlaceSpec | src/bin_packing.cpp:86-105 | placing keeps the state consistent for the next placement |
| BinPacking.FindPlaceable | src/bin_packing.cpp:37-84 | every area the search returns can be passed to Place |
| BinPacking.OpenBinsPlaceable | src/bin_packing.cpp:59-81 | the area a freshly opened bin provides can be passed to Place |
| BinPacking.Packer.constructor | src/bin_packing.cpp:14-18 | the packer starts with no bins or areas and with the usage counts it is given |
| BinPacking.Packer.FindNextAvailableArea | src/bin_packing.cpp:37-84 | the method's result and new state equal the specification `Find` |
| BinPacking.Packer.ScanAreas | src/bin_packing.cpp:46-57 | the nested loop computes LastBinFit |
| BinPacking.Packer.OpenFromMenu | src/bin_packing.cpp:59-81 | the menu loop computes `OpenBins` over the whole menu |
| BinPacking.Packer.Place | src/bin_packing.cpp:86-105 | the new state equals `PlaceSpec` |
| BinPacking.PackBins | src/bin_packing.cpp:7-35 | the returned bins are those of the specification `Pack` from the initial state |
| Guillotine.SplitVerticalPieces | src/bin_packing.cpp:107-126 | piece `a` is the strip below the item, as wide as the item; piece `b` is everything to its right, full height |
| Guillotine.SplitVerticalTiles | src/bin_packing.cpp:107-126 | for an item that fits, the item, `a` and `b` lie within the area and are pairwise disjoint |
| Guillotine.SplitVerticalExactFit | src/bin_packing.cpp:107-126 | an exact fit leaves two zero-size pieces |
| PackingProperties.Qualifying | src/bin_packing.cpp:60-66 | the menu entries the loop opens a bin for, in increasing order, each one under quota and fitting |
| PackingProperties.QualifyingComplete | src/bin_packing.cpp:60-66 | every entry under quota that fits is among them |
| PackingProperties.OpenBinsCounts | src/bin_packing.cpp:62-69 | the menu loop raises each qualifying entry's count by exactly one and leaves the others alone |
| PackingProperties.OpenBinsOpens | src/bin_packing.cpp:66-79 | the loop appends one empty bin, and one free area covering the whole bin, per qualifying entry, in menu order |
| PackingProperties.OpenBinsResult | src/bin_packing.cpp:74-78 | the result names the last bin opened and its only area, or nothing when no entry qualifies, in which case the state is unchanged |
| PackingProperties.FindReusesArea | src/bin_packing.cpp:46-59 | when some free area fits, no bin is opened, the area fits, and it is the first fit in the last bin having one; the bin id stays 0 |
| PackingProperties.NoFreeFitIsNoLastBinFit | src/bin_packing.cpp:46-57 | the scan finds nothing exactly when no free area fits |
| PackingProperties.NoneQualifiesIsEmpty | src/bin_packing.cpp:60-66 | no entry qualifies exactly when the loop opens nothing |
| PackingProperties.FindFails | src/bin_packing.cpp:37-84 | the search fails exactly when no free area fits and no entry qualifies, and a failed search changes nothing |
| PackingProperties.FindKeepsQuota | src/bin_packing.cpp:64-69 | the search never takes a finite entry past its quantity; with no free fit, a fitting unlimited entry opens exactly one more bin |
| PackingProperties.FindPlacesNothing | src/bin_packing.cpp:66-79 | opening bins adds no placements |
| PackingProperties.PlaceRecordsOnePlacement | src/bin_packing.cpp:93-104 | Place appends one record, holding the area's position and the item's id, to the chosen bin, replaces the area with `a` and appends `b` |
| PackingProperties.PlaceAddsOneId | src/bin_packing.cpp:97-98 | placing adds exactly the item's id to the multiset of placed ids |
| PackingProperties.PackPlacesPrefix | src/bin_packing.cpp:20-30 | packing places a prefix of the items: the placed ids are the old ones plus exactly the ids of the first `placed` items |
| PackingProperties.PackCountsPlacements | src/bin_packing.cpp:20-30 | the number of placements grows by the number of items placed |
| PackingProperties.PackStopsAtFailure | src/bin_packing.cpp:22-27 | packing stops early only at an item the search cannot place, and the state is then the one before that search |
| PackingProperties.PackKeepsQuota | src/bin_packing.cpp:20-30 | packing never uses a finite menu entry more often than its quantity |
| PackingProperties.PackBinsRespectsQuota | src/bin_packing.cpp:7-35 | from zeroed counts, PackBins respects every quantity |
| PackingSoundness.SoundPlacementsDoNotOverlap | src/bin_packing.cpp:86-105 | in a sound state every placement lies within its bin and two placements in one bin share no point |
| PackingSoundness.OpenedBinSound | src/bin_packing.cpp:67-75 | a new bin with one full-size free area is sound |
| PackingSoundness.BinPlaceSound | src/bin_packing.cpp:97-104 | placing an item that fits in a free area of a sound bin keeps the bin sound |
| PackingSoundness.PlaceKeepsSound | src/bin_packing.cpp:86-105 | Place keeps the whole state sound when the bin id is the area's bin |
| PackingSoundness.OpenBinsKeepsSound | src/bin_packing.cpp:59-81 | the menu loop as written, opening any number of bins, keeps a sound state sound |
| PackingSoundness.FindKeepsSound | src/bin_packing.cpp:37-84 | the search as written keeps a sound state sound and returns a placeable area that fits; `bin_id` names that area's bin whenever at most one bin is open or the area is one the search just opened |
| PackingSoundness.OneSheetFind | src/bin_packing.cpp:59-79 | with one sheet of quantity 1, the search keeps the number of bins equal to that sheet's count, and at most 1 |
| PackingSoundness.PackOneSheetKeepsSound | src/bin_packing.cpp:20-30 | with one sheet of quantity 1, the packing loop as written keeps a sound state sound |
| PackingSoundness.PackBinsOneSheetSound | src/bin_packing.cpp:7-35 | with one sheet of quantity 1, `PackBins` as written never overlaps two items and keeps each inside its bin |
| PackingSoundness.FirstBinFit | src/bin_packing.cpp:46-57 | the corrected scan: the first fitting area of the first bin that has one |
| PackingSoundness.FirstQualifying | src/bin_packing.cpp:60-66 | the first menu entry that is under quota and fits |
| PackingSoundness.FindFirstFit | src/bin_packing.cpp:37-84 | the corrected search: the area it returns fits, is placeable, and lies in the bin its id names |
| PackingSoundness.FindFirstFitReuses | src/bin_packing.cpp:46-57 | when a free area fits, the corrected search changes nothing and picks one no later, in bin-then-area order |
| PackingSoundness.FindFirstFitOpensOne | src/bin_packing.cpp:59-81 | with no free fit, the corrected search opens exactly one bin, for the first qualifying entry |
| PackingSoundness.FindFirstFitKeepsSound | src/bin_packing.cpp:37-84 | the corrected search keeps the state sound |
| PackingSoundness.PackFirstFit | src/bin_packing.cpp:20-30 | the corrected packing loop never places more items than it is given, and keeps the state well formed |
| PackingSoundness.PackFirstFitKeepsSound | src/bin_packing.cpp:20-30 | the corrected packing loop keeps the state sound |
| PackingSoundness.PackBinsFirstFitSound | src/bin_packing.cpp:7-35 | with the corrected search, no two placed items overlap and all lie within their bins |
| PackingSoundness.PackFirstFitFillsBins | src/bin_packing.cpp:59-81 | with the corrected search, every opened bin holds a placement |
| PackingSoundness.OverlapPack | src/bin_packing.cpp:7-35 | the as-written packer places all four items of the overlap input and ends in the listed state |
| PackingSoundness.PackBinsOverlaps | src/bin_packing.cpp:46-57 | on that input the as-written packer's result is not sound |
| PackingSoundness.OverlapStateUnsound | src/bin_packing.cpp:93-104 | items 3 and 4 are placed at (0,7) and (0,4) and both cover the point (5,8) |
| PackingSoundness.PackBinsLeavesEmptyBin | src/bin_packing.cpp:60-80 | with two fitting unlimited entries, one item opens two bins and leaves the first empty |
| PackingSoundness.StaleCountsBlockPacking | src/bin_packing.cpp:14 | a count left at 1 for a `Finite(1)` entry stops packing at once; from zero it places the item |
| PackingSoundness.PackBinsPlacesFirstItem | src/bin_packing.cpp:7-35 | from zeroed counts, an entry that fits the first item and has a non-zero quantity lets it be placed |

## Left out

- Logging: the `printf` calls in the pool and in `PackBins` are omitted.
- Freeing is not modelled: the `Free`, `FreeAll` and `ReleaseAll` functions and `SysAllocator` only release memory.
- `DynamicArray`, `String` and `HashMap` are not modelled. They are the `SysAllocator` twins of the modelled types.
- Pointers are abstracted: `GetPtr`, `LastPtr`, `Data`, `End` and `AvailableArea::area` become indices (`Address`, `EntryRef`, `AreaRef`). The model cannot see that `HashMapEx::Set` returns a pointer into a bucket freed by `Expand`, or that `Place` writes through such a pointer.
- The `HashMapEx` buckets are sequences. Their `kDefaultSlotSize` capacity and their allocator traffic are not modelled.
- `HashMaps.HashMapEx.constructor` requires `capacity >= 1`. With capacity 0, the source would take `% 0` on the first key.
- `Length`, `Capacity` and `Slot` of `HashMapEx` are field reads and have no members.
- `LinearAllocator::Realloc` lacks the template argument its `Alloc<T>` call needs, and does not compile when instantiated. The model gives it the element layout it evidently means.
- `Arenas.LinearAllocator.Realloc` and `Arenas.LinearAllocatorPool.Realloc` do not model the `memcpy`. The copy is done by the owning `DynamicArrayEx`, whose contents are kept.
- `Arenas.AlignUp` uses division instead of the bit mask. The two agree for the power-of-two alignments `alignof` yields.
- Sizes are unbounded: `size_t` overflow is not modelled.
- Floating point is not modelled: `float` is `real`, with no rounding, and `RoundFloatingInput` is not covered.
- The `Vec2Many` quantity, a `float` that may be infinite, is `Finite(n)` or `Infinite`.
- `Poly`, `Path` and the SVG parser are not modelled. Only the character predicates and `EatWhitespace` are.
- Pointer walks over C strings (`char*`, `char**`) are an index into a NUL-terminated sequence.
- `Strings.Djb2`: `unsigned long` is taken as 32 bits (the Windows LLP64 target). A `char` is its low byte read as signed.
- The capacities the packer passes (20 per bin, 10 for bins and areas) affect only allocation, and are not modelled.
- `BinPacking.Packer.FindNextAvailableArea` delegates its two loops to `ScanAreas` and `OpenFromMenu`. Each loop is proved on its own.
- `BinPacking.Packer.constructor` takes the initial usage counts as a parameter. The source reads them from an array it never fills; see Findings.
- `PackingSoundness.SizesKnown` gives each id one size. An item list that repeats an id with different sizes, which `PackBins` accepts, is outside the soundness lemmas. The caller in src/pipeline.cpp (lines 111-134) takes the ids from the keys of a map, so they are distinct.
- Where the prose description of the packer and the code disagree, the model follows the code. The description says free areas are searched in bin-open order and only the first qualifying menu entry opens a bin. The code keeps the last bin with a fit and opens a bin for every qualifying entry. The corrected first-fit search is modelled separately, in `PackingSoundness`.

## Findings

| source | as written | input that shows it | evidently intended | confidence | as-written member | corrected member |
|---|---|---|---|---|---|---|
| src/bin_packing.cpp:46-57, 93 | the `break` leaves only the inner loop, so a later bin's fit wins, while `bin_id` stays 0 and `Place` records the item in bin 0 at an area of another bin | menu one 10×10 sheet (unlimited); items 10×4, 10×7, 10×3, 10×6 with ids 1-4: items 3 and 4 land at (0,7) and (0,4) in bin 0 and overlap at (5,8) | stop at the first fit and record that area's bin, so placements never overlap | high (proved in the model; not executed) | PackingSoundness.PackBinsOverlaps | PackingSoundness.PackBinsFirstFitSound |
| src/bin_packing.cpp:14, 62 | `used_bins_count` is built with capacity but length 0 and never filled, so the counts read are whatever the memory holds | menu one 10×10 sheet with quantity 1, one 1×1 item, count memory holding 1: nothing is placed | counts start at zero, so an entry with quantity left can open a bin | medium (depends on memory contents; not executed) | PackingSoundness.StaleCountsBlockPacking | PackingSoundness.PackBinsPlacesFirstItem |
| src/bin_packing.cpp:60-80 | the menu loop has no `break`, so every qualifying entry opens a bin and only the last is used | menu 10×10 and 20×20 (unlimited), one 5×5 item: two bins are opened and bin 0 stays empty | open one bin, for the first qualifying entry | high (proved in the model; not executed) | PackingSoundness.PackBinsLeavesEmptyBin | PackingSoundness.PackFirstFitFillsBins |
