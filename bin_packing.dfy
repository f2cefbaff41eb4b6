/**
 * The guillotine rectangle packer (src/bin_packing.cpp).
 *
 * `PackBins` walks the items in order; for each one `FindNextAvailableArea`
 * looks for a free area that fits, opening bins from the menu when none does,
 * and `Place` records the placement and splits the chosen area in two with
 * `SplitVertical`. The packer's working arrays (`bins`, `used_bins_count`,
 * `available_areas`) are the fields of `Packer`; each of its methods is proved
 * equal to a function on `PackState`, and the properties of the packer are
 * proved about those functions.
 */
module BinPacking {
  import opened Wrappers
  import opened Vectors
  import opened Shapes

  /** How many bins of a size may be opened; the source's float may be `kInfinity`. */
  datatype Quantity = Finite(n: nat) | Infinite

  /** `Vec2Many`: a bin size offered in some quantity. */
  datatype Vec2Many = Vec2Many(size: Vec2, quantity: Quantity)

  /** `RectNamed`: an item to pack and its id. */
  datatype RectNamed = RectNamed(rect: Rect, id: nat)

  /** `Vec2Named`: a placement, the position of an item's top-left corner and the item's id. */
  datatype Vec2Named = Vec2Named(pos: Vec2, id: nat)

  /** `Bin`: its size and the placements made in it. */
  datatype Bin = Bin(size: Vec2, rects: seq<Vec2Named>)

  /** `RectPair`: the two pieces `SplitVertical` leaves. */
  datatype RectPair = RectPair(a: Rect, b: Rect)

  /** A free area, by bin and index in that bin's area list (the source holds a `Rect*`). */
  datatype AreaRef = AreaRef(bin: nat, index: nat)

  /** `AvailableArea`: the chosen free area, if any, and the bin `Place` records into. */
  datatype AvailableArea = AvailableArea(area: Option<AreaRef>, binId: nat)

  /** The packer's working arrays: `bins`, `used_bins_count` and `available_areas`. */
  datatype PackState = PackState(bins: seq<Bin>, used: seq<nat>, areas: seq<seq<Rect>>)

  /** What `FindNextAvailableArea` returns, with the state it leaves. */
  datatype Found = Found(area: AvailableArea, state: PackState)

  /** What `PackBins` ends with, and how many items it placed before it stopped. */
  datatype Packed = Packed(state: PackState, placed: nat)

  /** `Vec2::Fits`: a space of size `space` holds an item of size `size`, without rotation. */
  predicate Fits(space: Vec2, size: Vec2) {
    space.x >= size.x && space.y >= size.y
  }

  /** `*used >= quantity`: a menu entry has opened all the bins it may. */
  predicate Exhausted(used: nat, quantity: Quantity) {
    match quantity
    case Finite(n) => used >= n
    case Infinite => false
  }

  /** A menu entry that opens a bin for an item of size `size`. */
  predicate Qualifies(entry: Vec2Many, used: nat, size: Vec2) {
    !Exhausted(used, entry.quantity) && Fits(entry.size, size)
  }

  /** One count per menu entry and one area list per bin. */
  predicate WellFormed(menu: seq<Vec2Many>, st: PackState) {
    |st.used| == |menu| && |st.areas| == |st.bins|
  }

  /** The state `PackBins` starts from: no bins, and every count zero. */
  function Initial(menu: seq<Vec2Many>): (st: PackState)
    ensures WellFormed(menu, st) && st.bins == [] && forall i :: 0 <= i < |menu| ==> st.used[i] == 0
  {
    PackState([], seq(|menu|, _ => 0), [])
  }

  /**
   * `SplitVertical(rect, size)`: with the item at the top-left corner of
   * `rect`, piece `a` is the strip below the item and piece `b` the full-height
   * strip to its right.
   */
  function SplitVertical(r: Rect, size: Vec2): RectPair {
    var left := r.pos.x;
    var top := r.pos.y;
    var innerRight := left + size.x;
    var innerBot := top + size.y;
    var outerRight := left + r.size.x;
    var outerBot := top + r.size.y;
    RectPair(Rect(Vec2(left, innerBot), Vec2(innerRight - left, outerBot - innerBot)),
             Rect(Vec2(innerRight, top), Vec2(outerRight - innerRight, outerBot - top)))
  }

  /** The first area of a bin's list that fits `size`: the inner loop and its `break`. */
  function FirstFit(list: seq<Rect>, size: Vec2): (r: Option<nat>)
    ensures r.Some? ==> r.value < |list| && Fits(list[r.value].size, size)
    ensures r.Some? ==> forall j :: 0 <= j < r.value ==> !Fits(list[j].size, size)
    ensures r.None? ==> forall j :: 0 <= j < |list| ==> !Fits(list[j].size, size)
  {
    if |list| == 0 then None
    else if Fits(list[0].size, size) then Some(0)
    else match FirstFit(list[1..], size)
      case None => None
      case Some(j) => Some(j + 1)
  }

  /**
   * The area scan of `FindNextAvailableArea`: the `break` leaves only the inner
   * loop, so the outer loop goes on and a later bin's fit replaces an earlier
   * one. The result is the first fitting area of the LAST bin that has one.
   */
  function LastBinFit(areas: seq<seq<Rect>>, size: Vec2): (r: Option<AreaRef>)
    ensures r.Some? ==> r.value.bin < |areas| && FirstFit(areas[r.value.bin], size) == Some(r.value.index)
    ensures r.Some? ==> forall b :: r.value.bin < b < |areas| ==> FirstFit(areas[b], size).None?
    ensures r.None? ==> forall b :: 0 <= b < |areas| ==> FirstFit(areas[b], size).None?
  {
    if |areas| == 0 then None
    else
      var last := |areas| - 1;
      match FirstFit(areas[last], size)
      case Some(i) => Some(AreaRef(last, i))
      case None => LastBinFit(areas[..last], size)
  }

  /**
   * The menu loop of `FindNextAvailableArea` over its first `n` entries. It
   * has no `break`: every entry that is not exhausted and fits opens a bin
   * with one free area covering it, and the area returned is the last one
   * opened, with `bin_id` the last bin.
   */
  function OpenBins(menu: seq<Vec2Many>, st: PackState, size: Vec2, n: nat): (f: Found)
    requires WellFormed(menu, st) && n <= |menu|
    ensures WellFormed(menu, f.state)
  {
    if n == 0 then Found(AvailableArea(None, 0), st)
    else
      var f := OpenBins(menu, st, size, n - 1);
      var s := f.state;
      var entry := menu[n - 1];
      if Qualifies(entry, s.used[n - 1], size) then
        Found(AvailableArea(Some(AreaRef(|s.areas|, 0)), |s.bins|),
              PackState(s.bins + [Bin(entry.size, [])],
                        s.used[n - 1 := s.used[n - 1] + 1],
                        s.areas + [[Rect(Vec2(0.0, 0.0), entry.size)]]))
      else f
  }

  /** `FindNextAvailableArea`: reuse a free area when one fits, otherwise open bins from the menu. */
  function Find(menu: seq<Vec2Many>, st: PackState, size: Vec2): (f: Found)
    requires WellFormed(menu, st)
    ensures WellFormed(menu, f.state)
  {
    match LastBinFit(st.areas, size)
    case Some(ref) => Found(AvailableArea(Some(ref), 0), st)
    case None => OpenBins(menu, st, size, |menu|)
  }

  /** `Place` can follow the area and the bin of `area` in `st`. */
  predicate Placeable(st: PackState, area: AvailableArea) {
    && area.area.Some?
    && |st.areas| == |st.bins|
    && area.binId < |st.bins|
    && area.area.value.bin < |st.areas|
    && area.area.value.index < |st.areas[area.area.value.bin]|
  }

  /**
   * `Place`: appends the placement to bin `bin_id`, overwrites the chosen area
   * with piece `a` and appends piece `b` to the area list of bin `bin_id`.
   */
  function PlaceSpec(st: PackState, item: RectNamed, area: AvailableArea): (r: PackState)
    requires Placeable(st, area)
    ensures Placeable(r, area)
  {
    var ref := area.area.value;
    var chosen := st.areas[ref.bin][ref.index];
    var bin := st.bins[area.binId];
    var pieces := SplitVertical(chosen, item.rect.size);
    var areas := st.areas[ref.bin := st.areas[ref.bin][ref.index := pieces.a]];
    PackState(st.bins[area.binId := Bin(bin.size, bin.rects + [Vec2Named(chosen.pos, item.id)])],
              st.used,
              areas[area.binId := areas[area.binId] + [pieces.b]])
  }

  /** The area `Find` returns can be placed into. */
  lemma FindPlaceable(menu: seq<Vec2Many>, st: PackState, size: Vec2)
    requires WellFormed(menu, st) && Find(menu, st, size).area.area.Some?
    ensures Placeable(Find(menu, st, size).state, Find(menu, st, size).area)
  {
    if LastBinFit(st.areas, size).None? {
      OpenBinsPlaceable(menu, st, size, |menu|);
    }
  }

  lemma {:induction false} OpenBinsPlaceable(menu: seq<Vec2Many>, st: PackState, size: Vec2, n: nat)
    requires WellFormed(menu, st) && n <= |menu| && OpenBins(menu, st, size, n).area.area.Some?
    ensures Placeable(OpenBins(menu, st, size, n).state, OpenBins(menu, st, size, n).area)
  {
    if n > 0 {
      var f := OpenBins(menu, st, size, n - 1);
      if !Qualifies(menu[n - 1], f.state.used[n - 1], size) {
        OpenBinsPlaceable(menu, st, size, n - 1);
      }
    }
  }

  /**
   * `PackBins` from state `st`: items in order, each found an area and placed;
   * at the first item with no area the packer stops with what it has built.
   */
  function Pack(menu: seq<Vec2Many>, items: seq<RectNamed>, st: PackState): (r: Packed)
    requires WellFormed(menu, st)
    ensures WellFormed(menu, r.state)
    decreases |items|
  {
    if |items| == 0 then Packed(st, 0)
    else
      var f := Find(menu, st, items[0].rect.size);
      if f.area.area.None? then Packed(f.state, 0)
      else
        FindPlaceable(menu, st, items[0].rect.size);
        var rest := Pack(menu, items[1..], PlaceSpec(f.state, items[0], f.area));
        Packed(rest.state, rest.placed + 1)
  }

  /** The working arrays `PackBins` threads through `FindNextAvailableArea` and `Place`. */
  class Packer {
    /** `available_bins`: the menu of bin sizes. */
    const menu: seq<Vec2Many>
    var bins: seq<Bin>
    /** `used_bins_count`. */
    var used: seq<nat>
    /** `available_areas`: the free areas of each bin. */
    var areas: seq<seq<Rect>>

    function State(): PackState
      reads this
    {
      PackState(bins, used, areas)
    }

    constructor (menu: seq<Vec2Many>, used: seq<nat>)
      requires |used| == |menu|
      ensures this.menu == menu && State() == PackState([], used, [])
    {
      this.menu := menu;
      this.bins := [];
      this.used := used;
      this.areas := [];
    }

    /** `FindNextAvailableArea(size)`: the area scan, then, when it found nothing, the menu loop. */
    method FindNextAvailableArea(size: Vec2) returns (r: AvailableArea)
      requires WellFormed(menu, State())
      modifies this
      ensures Found(r, State()) == Find(menu, old(State()), size)
    {
      var area := ScanAreas(size);
      r := AvailableArea(area, 0);
      if r.area.None? {
        r := OpenFromMenu(size);
      }
    }

    /** The first loop of `FindNextAvailableArea`: the inner `break` ends only the scan of one bin. */
    method ScanAreas(size: Vec2) returns (area: Option<AreaRef>)
      ensures area == LastBinFit(areas, size)
    {
      area := None;
      var b := 0;
      while b < |areas|
        invariant 0 <= b <= |areas|
        invariant area == LastBinFit(areas[..b], size)
      {
        var binAreas := areas[b];
        var a := 0;
        while a < |binAreas|
          invariant 0 <= a <= |binAreas|
          invariant forall j :: 0 <= j < a ==> !Fits(binAreas[j].size, size)
          invariant area == LastBinFit(areas[..b], size)
        {
          if Fits(binAreas[a].size, size) {
            area := Some(AreaRef(b, a));
            break;
          }
          a := a + 1;
        }
        assert areas[..b + 1][..b] == areas[..b];
        b := b + 1;
      }
      assert areas[..b] == areas;
    }

    /** The second loop of `FindNextAvailableArea`: every qualifying menu entry opens a bin. */
    method OpenFromMenu(size: Vec2) returns (r: AvailableArea)
      requires WellFormed(menu, State())
      modifies this
      ensures Found(r, State()) == OpenBins(menu, old(State()), size, |menu|)
    {
      r := AvailableArea(None, 0);
      var i := 0;
      while i < |menu|
        invariant 0 <= i <= |menu|
        invariant Found(r, State()) == OpenBins(menu, old(State()), size, i)
      {
        if Exhausted(used[i], menu[i].quantity) {
          i := i + 1;
          continue;
        }
        if Fits(menu[i].size, size) {
          ghost var before := areas;
          bins := bins + [Bin(menu[i].size, [])];
          used := used[i := used[i] + 1];
          areas := areas + [[]];
          areas := areas[|areas| - 1 := areas[|areas| - 1] + [Rect(Vec2(0.0, 0.0), menu[i].size)]];
          assert areas[|before|] == [] + [Rect(Vec2(0.0, 0.0), menu[i].size)] == [Rect(Vec2(0.0, 0.0), menu[i].size)];
          assert areas == before + [[Rect(Vec2(0.0, 0.0), menu[i].size)]];
          r := AvailableArea(Some(AreaRef(|areas| - 1, |areas[|areas| - 1]| - 1)), |bins| - 1);
        }
        i := i + 1;
      }
    }

    /** `Place(rect, area)`. */
    method Place(item: RectNamed, area: AvailableArea)
      requires Placeable(State(), area)
      modifies this
      ensures State() == PlaceSpec(old(State()), item, area)
    {
      var ref := area.area.value;
      var chosen := areas[ref.bin][ref.index];
      var bin := bins[area.binId];
      bins := bins[area.binId := Bin(bin.size, bin.rects + [Vec2Named(chosen.pos, item.id)])];
      var pieces := SplitVertical(chosen, item.rect.size);
      areas := areas[ref.bin := areas[ref.bin][ref.index := pieces.a]];
      areas := areas[area.binId := areas[area.binId] + [pieces.b]];
    }
  }

  /**
   * `PackBins(available_bins, rects)`, with every count of `used_bins_count`
   * starting at zero: the bins built by packing the items in order, up to the
   * first item for which no area is found.
   */
  method PackBins(menu: seq<Vec2Many>, items: seq<RectNamed>) returns (bins: seq<Bin>)
    ensures bins == Pack(menu, items, Initial(menu)).state.bins
  {
    var packer := new Packer(menu, seq(|menu|, _ => 0));
    var i := 0;
    while i < |items|
      invariant 0 <= i <= |items|
      invariant fresh(packer) && packer.menu == menu && WellFormed(menu, packer.State())
      invariant Pack(menu, items[i..], packer.State()).state == Pack(menu, items, Initial(menu)).state
    {
      ghost var before := packer.State();
      var area := packer.FindNextAvailableArea(items[i].rect.size);
      if area.area.None? {
        return packer.bins;
      }
      FindPlaceable(menu, before, items[i].rect.size);
      packer.Place(items[i], area);
      assert items[i..][1..] == items[i + 1..];
      i := i + 1;
    }
    return packer.bins;
  }
}
