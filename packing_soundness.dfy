/**
 * Non-overlap of the guillotine packer (src/bin_packing.cpp): in every bin
 * the placed items and the free areas are pairwise disjoint and lie inside
 * the bin. `Place` keeps this when it records the item in the bin its area
 * came from. `FindNextAvailableArea` as written can return an area of one bin
 * and `bin_id` 0, so `PackBins` can overlap items; the first-fit search
 * below returns the bin of the area it picked, opens at most one bin, and is
 * proved to keep every bin free of overlaps.
 */
module PackingSoundness {
  import opened Wrappers
  import opened Vectors
  import opened Shapes
  import opened BinPacking
  import opened Guillotine
  import PackingProperties

  /** Item sizes are not negative, and `sizes` knows each item's size by its id. */
  predicate SizesKnown(items: seq<RectNamed>, sizes: map<nat, Vec2>) {
    forall i :: 0 <= i < |items| ==>
      items[i].id in sizes && sizes[items[i].id] == items[i].rect.size
      && items[i].rect.size.x >= 0.0 && items[i].rect.size.y >= 0.0
  }

  /** The rectangle a placement covers, from the size of the item with its id. */
  function Footprint(p: Vec2Named, sizes: map<nat, Vec2>): Rect
    requires p.id in sizes
  {
    Rect(p.pos, sizes[p.id])
  }

  /** The whole bin, with its top-left corner at the origin. */
  function Bounds(bin: Bin): Rect {
    Rect(Vec2(0.0, 0.0), bin.size)
  }

  /** Every placement's id has a known size. */
  predicate Known(rects: seq<Vec2Named>, sizes: map<nat, Vec2>) {
    forall j :: 0 <= j < |rects| ==> rects[j].id in sizes
  }

  /** The rectangles the placements cover, in order. */
  function Footprints(rects: seq<Vec2Named>, sizes: map<nat, Vec2>): (fps: seq<Rect>)
    requires Known(rects, sizes)
    ensures |fps| == |rects| && forall j :: 0 <= j < |rects| ==> fps[j] == Footprint(rects[j], sizes)
  {
    seq(|rects|, j requires 0 <= j < |rects| => Footprint(rects[j], sizes))
  }

  /** Every rectangle of `xs` lies inside `outer`. */
  ghost predicate AllWithin(xs: seq<Rect>, outer: Rect) {
    forall i :: 0 <= i < |xs| ==> Within(xs[i], outer)
  }

  /** No two rectangles at different positions of `xs` overlap. */
  ghost predicate Apart(xs: seq<Rect>) {
    forall i, j :: 0 <= i < |xs| && 0 <= j < |xs| && i != j ==> Disjoint(xs[i], xs[j])
  }

  /** No rectangle of `xs` overlaps one of `ys`. */
  ghost predicate ApartFrom(xs: seq<Rect>, ys: seq<Rect>) {
    forall i, j :: 0 <= i < |xs| && 0 <= j < |ys| ==> Disjoint(xs[i], ys[j])
  }

  /**
   * One bin and its free areas: every placement and every free area lies
   * inside the bin, the free areas are proper, and no two of them overlap.
   */
  ghost predicate BinSound(bin: Bin, free: seq<Rect>, sizes: map<nat, Vec2>) {
    && Known(bin.rects, sizes)
    && (forall i :: 0 <= i < |free| ==> Proper(free[i]))
    && AllWithin(free, Bounds(bin))
    && AllWithin(Footprints(bin.rects, sizes), Bounds(bin))
    && Apart(free)
    && Apart(Footprints(bin.rects, sizes))
    && ApartFrom(free, Footprints(bin.rects, sizes))
  }

  /** Replacing `xs[k]` by two disjoint parts of it keeps the list apart. */
  lemma SplitKeepsApart(xs: seq<Rect>, k: nat, a: Rect, b: Rect)
    requires Apart(xs) && k < |xs| && Within(a, xs[k]) && Within(b, xs[k]) && Disjoint(a, b)
    ensures Apart(xs[k := a] + [b])
  {
    var ys := xs[k := a] + [b];
    forall i, j | 0 <= i < |ys| && 0 <= j < |ys| && i != j
      ensures Disjoint(ys[i], ys[j])
    {
      if i != k && i < |xs| {
        WithinDisjoint(a, xs[k], xs[i]);
        WithinDisjoint(b, xs[k], xs[i]);
      }
      if j != k && j < |xs| {
        WithinDisjoint(a, xs[k], xs[j]);
        WithinDisjoint(b, xs[k], xs[j]);
      }
    }
  }

  /** Appending a rectangle that lies in `c`, which overlaps none of `xs`, keeps `xs` apart. */
  lemma AppendKeepsApart(xs: seq<Rect>, c: Rect, r: Rect)
    requires Apart(xs) && Within(r, c) && forall j :: 0 <= j < |xs| ==> Disjoint(c, xs[j])
    ensures Apart(xs + [r])
  {
    forall j | 0 <= j < |xs|
      ensures Disjoint(r, xs[j]) && Disjoint(xs[j], r)
    {
      WithinDisjoint(r, c, xs[j]);
    }
  }

  /**
   * Splitting `xs[k]` into `a` and `b` and appending `r` to `ys`, all three
   * disjoint parts of `xs[k]`, keeps `xs` clear of `ys`.
   */
  lemma SplitKeepsApartFrom(xs: seq<Rect>, ys: seq<Rect>, k: nat, a: Rect, b: Rect, r: Rect)
    requires ApartFrom(xs, ys) && Apart(xs) && k < |xs|
    requires Within(a, xs[k]) && Within(b, xs[k]) && Within(r, xs[k]) && Disjoint(a, r) && Disjoint(b, r)
    ensures ApartFrom(xs[k := a] + [b], ys + [r])
  {
    var xs' := xs[k := a] + [b];
    var ys' := ys + [r];
    forall i, j | 0 <= i < |xs'| && 0 <= j < |ys'|
      ensures Disjoint(xs'[i], ys'[j])
    {
      if j < |ys| {
        WithinDisjoint(a, xs[k], ys[j]);
        WithinDisjoint(b, xs[k], ys[j]);
      } else if i != k && i < |xs| {
        WithinDisjoint(r, xs[k], xs[i]);
      }
    }
  }

  /** Every bin of the packer's state is sound. */
  ghost predicate Sound(st: PackState, sizes: map<nat, Vec2>) {
    |st.areas| == |st.bins| && forall b :: 0 <= b < |st.bins| ==> BinSound(st.bins[b], st.areas[b], sizes)
  }

  /** In a sound state no two placements of a bin share a point, and each lies in its bin. */
  lemma SoundPlacementsDoNotOverlap(st: PackState, sizes: map<nat, Vec2>, b: nat, j: nat, j': nat, x: real, y: real)
    requires Sound(st, sizes) && b < |st.bins| && j < |st.bins[b].rects| && j' < |st.bins[b].rects|
    ensures Contains(Footprint(st.bins[b].rects[j], sizes), x, y) ==> Contains(Bounds(st.bins[b]), x, y)
    ensures j != j' ==>
      !(Contains(Footprint(st.bins[b].rects[j], sizes), x, y) && Contains(Footprint(st.bins[b].rects[j'], sizes), x, y))
  {
    var bin := st.bins[b];
    if j != j' {
      DisjointShareNoPoint(Footprint(bin.rects[j], sizes), Footprint(bin.rects[j'], sizes), x, y);
    }
  }

  /** A freshly opened bin, with one free area covering it, is sound. */
  lemma OpenedBinSound(size: Vec2, sizes: map<nat, Vec2>)
    requires size.x >= 0.0 && size.y >= 0.0
    ensures BinSound(Bin(size, []), [Rect(Vec2(0.0, 0.0), size)], sizes)
  {
  }

  /**
   * Placing an item that fits at the corner of free area `k`, replacing that
   * area with piece `a` and appending piece `b`, keeps the bin sound.
   */
  lemma BinPlaceSound(bin: Bin, free: seq<Rect>, k: nat, item: RectNamed, sizes: map<nat, Vec2>)
    requires BinSound(bin, free, sizes) && k < |free| && Fits(free[k].size, item.rect.size)
    requires item.rect.size.x >= 0.0 && item.rect.size.y >= 0.0
    requires item.id in sizes && sizes[item.id] == item.rect.size
    ensures var p := SplitVertical(free[k], item.rect.size);
      BinSound(Bin(bin.size, bin.rects + [Vec2Named(free[k].pos, item.id)]), free[k := p.a] + [p.b], sizes)
  {
    var chosen := free[k];
    var p := SplitVertical(chosen, item.rect.size);
    var placed := Vec2Named(chosen.pos, item.id);
    var rects := bin.rects + [placed];
    var fps := Footprints(bin.rects, sizes);
    var it := Footprint(placed, sizes);
    SplitVerticalTiles(chosen, item.rect.size);
    assert it == ItemAt(chosen, item.rect.size);
    assert Footprints(rects, sizes) == fps + [it];
    SplitKeepsApart(free, k, p.a, p.b);
    AppendKeepsApart(fps, chosen, it);
    SplitKeepsApartFrom(free, fps, k, p.a, p.b, it);
  }

  /** `Place` keeps the state sound when it records the item in the bin its area came from. */
  lemma PlaceKeepsSound(st: PackState, item: RectNamed, area: AvailableArea, sizes: map<nat, Vec2>)
    requires Sound(st, sizes) && Placeable(st, area) && area.binId == area.area.value.bin
    requires Fits(st.areas[area.area.value.bin][area.area.value.index].size, item.rect.size)
    requires item.rect.size.x >= 0.0 && item.rect.size.y >= 0.0
    requires item.id in sizes && sizes[item.id] == item.rect.size
    ensures Sound(PlaceSpec(st, item, area), sizes)
  {
    var k := area.binId;
    var index := area.area.value.index;
    var free := st.areas[k];
    var p := SplitVertical(free[index], item.rect.size);
    BinPlaceSound(st.bins[k], free, index, item, sizes);
    var r := PlaceSpec(st, item, area);
    assert r.areas == st.areas[k := free[index := p.a] + [p.b]];
  }

  /**
   * The area scan meant by "first fit": the first bin, in the order the bins
   * were opened, that has a fitting area, and its first fitting area.
   */
  function FirstBinFit(areas: seq<seq<Rect>>, size: Vec2): (r: Option<AreaRef>)
    ensures r.Some? ==> r.value.bin < |areas| && FirstFit(areas[r.value.bin], size) == Some(r.value.index)
    ensures r.Some? ==> forall b :: 0 <= b < r.value.bin ==> FirstFit(areas[b], size).None?
    ensures r.None? ==> forall b :: 0 <= b < |areas| ==> FirstFit(areas[b], size).None?
  {
    if |areas| == 0 then None
    else match FirstFit(areas[0], size)
      case Some(i) => Some(AreaRef(0, i))
      case None =>
        match FirstBinFit(areas[1..], size)
        case None => None
        case Some(ref) => Some(AreaRef(ref.bin + 1, ref.index))
  }

  /** The first menu entry from index `from` on that is not exhausted and fits `size`. */
  function FirstQualifying(menu: seq<Vec2Many>, used: seq<nat>, size: Vec2, from: nat): (r: Option<nat>)
    requires |used| == |menu| && from <= |menu|
    ensures r.Some? ==> from <= r.value < |menu| && Qualifies(menu[r.value], used[r.value], size)
    ensures r.Some? ==> forall i :: from <= i < r.value ==> !Qualifies(menu[i], used[i], size)
    ensures r.None? ==> forall i :: from <= i < |menu| ==> !Qualifies(menu[i], used[i], size)
    decreases |menu| - from
  {
    if from == |menu| then None
    else if Qualifies(menu[from], used[from], size) then Some(from)
    else FirstQualifying(menu, used, size, from + 1)
  }

  /**
   * `FindNextAvailableArea` as intended: the first fitting free area, with
   * the bin it belongs to; otherwise one new bin from the first menu entry
   * that is not exhausted and fits.
   */
  function FindFirstFit(menu: seq<Vec2Many>, st: PackState, size: Vec2): (f: Found)
    requires WellFormed(menu, st)
    ensures WellFormed(menu, f.state)
    ensures f.area.area.Some? ==> Placeable(f.state, f.area) && f.area.binId == f.area.area.value.bin
    ensures f.area.area.Some? ==> Fits(f.state.areas[f.area.binId][f.area.area.value.index].size, size)
  {
    match FirstBinFit(st.areas, size)
    case Some(ref) => Found(AvailableArea(Some(ref), ref.bin), st)
    case None =>
      match FirstQualifying(menu, st.used, size, 0)
      case None => Found(AvailableArea(None, 0), st)
      case Some(i) =>
        Found(AvailableArea(Some(AreaRef(|st.areas|, 0)), |st.bins|),
              PackState(st.bins + [Bin(menu[i].size, [])],
                        st.used[i := st.used[i] + 1],
                        st.areas + [[Rect(Vec2(0.0, 0.0), menu[i].size)]]))
  }

  /**
   * When some open bin has a fitting free area, the first-fit search changes
   * nothing and returns a fitting area no later, in bin-open then list order,
   * than any other fitting area, together with the bin it belongs to.
   */
  lemma FindFirstFitReuses(menu: seq<Vec2Many>, st: PackState, size: Vec2, b: nat, j: nat)
    requires WellFormed(menu, st) && b < |st.areas| && j < |st.areas[b]| && Fits(st.areas[b][j].size, size)
    ensures var f := FindFirstFit(menu, st, size);
      && f.state == st && f.area.area.Some? && f.area.binId == f.area.area.value.bin
      && (f.area.binId < b || (f.area.binId == b && f.area.area.value.index <= j))
  {
    var r := FirstBinFit(st.areas, size);
    if r.Some? && r.value.bin == b {
      assert FirstFit(st.areas[b], size) == Some(r.value.index);
    }
  }

  /**
   * When no free area fits, the first-fit search opens exactly one bin, from
   * the first qualifying menu entry, counting one use of that entry only; when
   * no entry qualifies it returns no area and changes nothing.
   */
  lemma FindFirstFitOpensOne(menu: seq<Vec2Many>, st: PackState, size: Vec2)
    requires WellFormed(menu, st) && FirstBinFit(st.areas, size).None?
    ensures var f := FindFirstFit(menu, st, size);
      match FirstQualifying(menu, st.used, size, 0)
      case None => f.area.area.None? && f.state == st
      case Some(i) =>
        && (forall i' :: 0 <= i' < i ==> !Qualifies(menu[i'], st.used[i'], size))
        && f.state.bins == st.bins + [Bin(menu[i].size, [])]
        && f.state.areas == st.areas + [[Rect(Vec2(0.0, 0.0), menu[i].size)]]
        && (forall i' :: 0 <= i' < |menu| ==> f.state.used[i'] == st.used[i'] + (if i' == i then 1 else 0))
        && f.area == AvailableArea(Some(AreaRef(|st.areas|, 0)), |st.bins|)
  {
  }

  /** The first-fit search keeps a sound state sound. */
  lemma FindFirstFitKeepsSound(menu: seq<Vec2Many>, st: PackState, size: Vec2, sizes: map<nat, Vec2>)
    requires WellFormed(menu, st) && Sound(st, sizes) && size.x >= 0.0 && size.y >= 0.0
    ensures Sound(FindFirstFit(menu, st, size).state, sizes)
  {
    if FirstBinFit(st.areas, size).None? {
      var q := FirstQualifying(menu, st.used, size, 0);
      if q.Some? {
        OpenedBinSound(menu[q.value].size, sizes);
      }
    }
  }

  /** `PackBins` with the first-fit search. */
  function PackFirstFit(menu: seq<Vec2Many>, items: seq<RectNamed>, st: PackState): (r: Packed)
    requires WellFormed(menu, st)
    ensures WellFormed(menu, r.state) && r.placed <= |items|
    decreases |items|
  {
    if |items| == 0 then Packed(st, 0)
    else
      var f := FindFirstFit(menu, st, items[0].rect.size);
      if f.area.area.None? then Packed(f.state, 0)
      else
        var rest := PackFirstFit(menu, items[1..], PlaceSpec(f.state, items[0], f.area));
        Packed(rest.state, rest.placed + 1)
  }

  /**
   * Non-overlap: packing with the first-fit search from a sound state ends
   * in a sound state, so no two items of a bin overlap and every item lies
   * inside its bin.
   */
  lemma {:induction false} PackFirstFitKeepsSound(menu: seq<Vec2Many>, items: seq<RectNamed>, st: PackState, sizes: map<nat, Vec2>)
    requires WellFormed(menu, st) && Sound(st, sizes) && SizesKnown(items, sizes)
    ensures Sound(PackFirstFit(menu, items, st).state, sizes)
    decreases |items|
  {
    if |items| > 0 {
      var item := items[0];
      var f := FindFirstFit(menu, st, item.rect.size);
      FindFirstFitKeepsSound(menu, st, item.rect.size, sizes);
      if f.area.area.Some? {
        PlaceKeepsSound(f.state, item, f.area, sizes);
        assert SizesKnown(items[1..], sizes) by {
          forall i | 0 <= i < |items[1..]|
            ensures items[1..][i] == items[i + 1]
          {
          }
        }
        PackFirstFitKeepsSound(menu, items[1..], PlaceSpec(f.state, item, f.area), sizes);
      }
    }
  }

  /** Packing from scratch with the first-fit search never overlaps items. */
  lemma PackBinsFirstFitSound(menu: seq<Vec2Many>, items: seq<RectNamed>, sizes: map<nat, Vec2>)
    requires SizesKnown(items, sizes)
    ensures Sound(PackFirstFit(menu, items, Initial(menu)).state, sizes)
  {
    PackFirstFitKeepsSound(menu, items, Initial(menu), sizes);
  }

  /** Every bin holds at least one item. */
  predicate NoEmptyBins(bins: seq<Bin>) {
    forall b :: 0 <= b < |bins| ==> |bins[b].rects| > 0
  }

  /**
   * With the first-fit search a bin is opened only for the item placed in
   * it, so no bin is left empty.
   */
  lemma {:induction false} PackFirstFitFillsBins(menu: seq<Vec2Many>, items: seq<RectNamed>, st: PackState)
    requires WellFormed(menu, st) && NoEmptyBins(st.bins)
    ensures NoEmptyBins(PackFirstFit(menu, items, st).state.bins)
    decreases |items|
  {
    if |items| > 0 {
      var f := FindFirstFit(menu, st, items[0].rect.size);
      if f.area.area.Some? {
        var next := PlaceSpec(f.state, items[0], f.area);
        assert forall b :: 0 <= b < |next.bins| && b != f.area.binId ==> next.bins[b] == f.state.bins[b];
        assert forall b :: 0 <= b < |f.state.bins| && b != |st.bins| ==> f.state.bins[b] == st.bins[b];
        PackFirstFitFillsBins(menu, items[1..], next);
      }
    }
  }

  /** Opening bins from the menu, as the search as written does, keeps a sound state sound. */
  lemma {:induction false} OpenBinsKeepsSound(menu: seq<Vec2Many>, st: PackState, size: Vec2, n: nat, sizes: map<nat, Vec2>)
    requires WellFormed(menu, st) && n <= |menu| && Sound(st, sizes) && size.x >= 0.0 && size.y >= 0.0
    ensures Sound(OpenBins(menu, st, size, n).state, sizes)
  {
    if n > 0 {
      OpenBinsKeepsSound(menu, st, size, n - 1, sizes);
      var s := OpenBins(menu, st, size, n - 1).state;
      if Qualifies(menu[n - 1], s.used[n - 1], size) {
        OpenedBinSound(menu[n - 1].size, sizes);
      }
    }
  }

  /**
   * The search as written keeps a sound state sound and returns a placeable
   * area that fits. Its `bin_id` names the area's bin when at most one bin is
   * open, and when the area is one of a bin it has just opened: only reusing
   * an area of a bin other than bin 0 records the item in the wrong bin.
   */
  lemma FindKeepsSound(menu: seq<Vec2Many>, st: PackState, size: Vec2, sizes: map<nat, Vec2>)
    requires WellFormed(menu, st) && Sound(st, sizes) && size.x >= 0.0 && size.y >= 0.0
    ensures var f := Find(menu, st, size);
      && Sound(f.state, sizes)
      && (f.area.area.Some? ==>
            && Placeable(f.state, f.area)
            && Fits(f.state.areas[f.area.area.value.bin][f.area.area.value.index].size, size))
      && (f.area.area.Some? && |st.bins| <= 1 ==> f.area.binId == f.area.area.value.bin)
      && (f.area.area.Some? && LastBinFit(st.areas, size).None? ==> f.area.binId == f.area.area.value.bin)
  {
    var f := Find(menu, st, size);
    if f.area.area.Some? {
      FindPlaceable(menu, st, size);
    }
    if LastBinFit(st.areas, size).None? {
      OpenBinsKeepsSound(menu, st, size, |menu|, sizes);
      PackingProperties.OpenBinsResult(menu, st, size, |menu|);
      PackingProperties.OpenBinsOpens(menu, st, size, |menu|);
      var q := PackingProperties.Qualifying(menu, st.used, size, |menu|);
      if |q| > 0 {
        assert f.state.areas[|st.areas| + |q| - 1] == PackingProperties.OpenedAreas(menu, q)[|q| - 1];
      }
    }
  }

  /** The search as written on a menu of one sheet that may be used once. */
  lemma OneSheetFind(menu: seq<Vec2Many>, st: PackState, size: Vec2)
    requires |menu| == 1 && menu[0].quantity == Finite(1)
    requires WellFormed(menu, st) && |st.bins| == st.used[0] <= 1
    ensures var f := Find(menu, st, size); |f.state.bins| == f.state.used[0] <= 1
  {
    if LastBinFit(st.areas, size).None? {
      assert OpenBins(menu, st, size, 0) == Found(AvailableArea(None, 0), st);
    }
  }

  /**
   * With one sheet that may be used once, at most one bin is ever open, so
   * the packer as written keeps a sound state sound.
   */
  lemma {:induction false} PackOneSheetKeepsSound(menu: seq<Vec2Many>, items: seq<RectNamed>, st: PackState, sizes: map<nat, Vec2>)
    requires |menu| == 1 && menu[0].quantity == Finite(1)
    requires WellFormed(menu, st) && |st.bins| == st.used[0] <= 1 && Sound(st, sizes) && SizesKnown(items, sizes)
    ensures Sound(Pack(menu, items, st).state, sizes)
    decreases |items|
  {
    if |items| > 0 {
      var item := items[0];
      var f := Find(menu, st, item.rect.size);
      FindKeepsSound(menu, st, item.rect.size, sizes);
      if f.area.area.Some? {
        OneSheetFind(menu, st, item.rect.size);
        PlaceKeepsSound(f.state, item, f.area, sizes);
        var next := PlaceSpec(f.state, item, f.area);
        assert |next.bins| == |f.state.bins| && next.used == f.state.used;
        assert SizesKnown(items[1..], sizes) by {
          forall i | 0 <= i < |items[1..]|
            ensures items[1..][i] == items[i + 1]
          {
          }
        }
        PackOneSheetKeepsSound(menu, items[1..], next, sizes);
      }
    }
  }

  /** `PackBins` as written never overlaps items when the menu is one sheet that may be used once. */
  lemma PackBinsOneSheetSound(menu: seq<Vec2Many>, items: seq<RectNamed>, sizes: map<nat, Vec2>)
    requires |menu| == 1 && menu[0].quantity == Finite(1) && SizesKnown(items, sizes)
    ensures Sound(Pack(menu, items, Initial(menu)).state, sizes)
  {
    PackOneSheetKeepsSound(menu, items, Initial(menu), sizes);
  }

  // The findings, on concrete inputs.

  function Item(id: nat, w: real, h: real): RectNamed {
    RectNamed(Rect(Vec2(0.0, 0.0), Vec2(w, h)), id)
  }

  function R(x: real, y: real, w: real, h: real): Rect {
    Rect(Vec2(x, y), Vec2(w, h))
  }

  function P(x: real, y: real, id: nat): Vec2Named {
    Vec2Named(Vec2(x, y), id)
  }

  /** One unlimited 10x10 bin size. */
  function OverlapMenu(): seq<Vec2Many> {
    [Vec2Many(Vec2(10.0, 10.0), Infinite)]
  }

  /** Items of 10x4, 10x7, 10x3 and 10x6, with ids 1 to 4. */
  function OverlapItems(): seq<RectNamed> {
    [Item(1, 10.0, 4.0), Item(2, 10.0, 7.0), Item(3, 10.0, 3.0), Item(4, 10.0, 6.0)]
  }

  function OverlapSizes(): map<nat, Vec2> {
    map[1 := Vec2(10.0, 4.0), 2 := Vec2(10.0, 7.0), 3 := Vec2(10.0, 3.0), 4 := Vec2(10.0, 6.0)]
  }

  /** The packer's state after the first `k` overlap items, as `PackBins` is written. */
  function OverlapState(k: nat): PackState {
    var bin := Vec2(10.0, 10.0);
    if k == 0 then PackState([], [0], [])
    else if k == 1 then
      PackState([Bin(bin, [P(0.0, 0.0, 1)])], [1], [[R(0.0, 4.0, 10.0, 6.0), R(10.0, 0.0, 0.0, 10.0)]])
    else if k == 2 then
      PackState([Bin(bin, [P(0.0, 0.0, 1)]), Bin(bin, [P(0.0, 0.0, 2)])], [2],
        [[R(0.0, 4.0, 10.0, 6.0), R(10.0, 0.0, 0.0, 10.0)], [R(0.0, 7.0, 10.0, 3.0), R(10.0, 0.0, 0.0, 10.0)]])
    else if k == 3 then
      PackState([Bin(bin, [P(0.0, 0.0, 1), P(0.0, 7.0, 3)]), Bin(bin, [P(0.0, 0.0, 2)])], [2],
        [[R(0.0, 4.0, 10.0, 6.0), R(10.0, 0.0, 0.0, 10.0), R(10.0, 7.0, 0.0, 3.0)],
         [R(0.0, 10.0, 10.0, 0.0), R(10.0, 0.0, 0.0, 10.0)]])
    else
      PackState([Bin(bin, [P(0.0, 0.0, 1), P(0.0, 7.0, 3), P(0.0, 4.0, 4)]), Bin(bin, [P(0.0, 0.0, 2)])], [2],
        [[R(0.0, 10.0, 10.0, 0.0), R(10.0, 0.0, 0.0, 10.0), R(10.0, 7.0, 0.0, 3.0), R(10.0, 4.0, 0.0, 6.0)],
         [R(0.0, 10.0, 10.0, 0.0), R(10.0, 0.0, 0.0, 10.0)]])
  }

  /** Packing item `k` from state `k` finds an area and leads to state `k + 1`. */
  predicate OverlapStepHolds(k: nat)
    requires k < 4
  {
    var f := Find(OverlapMenu(), OverlapState(k), OverlapItems()[k].rect.size);
    && f.area.area.Some?
    && Placeable(f.state, f.area)
    && PlaceSpec(f.state, OverlapItems()[k], f.area) == OverlapState(k + 1)
  }

  /** Item 1 opens bin 0. */
  lemma OverlapStep0()
    ensures OverlapStepHolds(0)
  {
    var bin := Vec2(10.0, 10.0);
    var f := Find(OverlapMenu(), OverlapState(0), OverlapItems()[0].rect.size);
    assert f == Found(AvailableArea(Some(AreaRef(0, 0)), 0), PackState([Bin(bin, [])], [1], [[R(0.0, 0.0, 10.0, 10.0)]]));
    var r := PlaceSpec(f.state, OverlapItems()[0], f.area);
    assert SplitVertical(R(0.0, 0.0, 10.0, 10.0), Vec2(10.0, 4.0)) == RectPair(R(0.0, 4.0, 10.0, 6.0), R(10.0, 0.0, 0.0, 10.0));
    assert f.state.areas[0][0] == R(0.0, 0.0, 10.0, 10.0);
    assert OverlapItems()[0].rect.size == Vec2(10.0, 4.0);
    assert r.bins[0] == OverlapState(1).bins[0];
    assert |r.bins| == 1;
    assert r.areas[0] == [R(0.0, 4.0, 10.0, 6.0)] + [R(10.0, 0.0, 0.0, 10.0)];
    assert r.areas[0] == OverlapState(1).areas[0];
    assert |r.areas| == 1;
    assert r.bins == OverlapState(1).bins;
    assert r.areas == OverlapState(1).areas;
  }

  /** Item 2 fits no free area and opens bin 1. */
  lemma OverlapStep1()
    ensures OverlapStepHolds(1)
  {
    var bin := Vec2(10.0, 10.0);
    var s := OverlapState(1);
    var size := OverlapItems()[1].rect.size;
    assert LastBinFit(s.areas, size) == None by {
      assert FirstFit(s.areas[0], size) == None;
    }
    var f := Find(OverlapMenu(), s, size);
    assert f == Found(AvailableArea(Some(AreaRef(1, 0)), 1),
      PackState(s.bins + [Bin(bin, [])], [2], s.areas + [[R(0.0, 0.0, 10.0, 10.0)]]));
    var r := PlaceSpec(f.state, OverlapItems()[1], f.area);
    assert |r.bins| == 2 && r.bins[0] == OverlapState(2).bins[0] && r.bins[1] == OverlapState(2).bins[1];
    assert |r.areas| == 2 && r.areas[0] == OverlapState(2).areas[0] && r.areas[1] == OverlapState(2).areas[1];
    assert r.bins == OverlapState(2).bins;
    assert r.areas == OverlapState(2).areas;
  }

  /** Item 3 fits in both bins; the later bin's area wins, but `bin_id` stays 0. */
  lemma OverlapStep2()
    ensures OverlapStepHolds(2)
  {
    var s := OverlapState(2);
    var size := OverlapItems()[2].rect.size;
    assert LastBinFit(s.areas, size) == Some(AreaRef(1, 0));
    var f := Find(OverlapMenu(), s, size);
    assert f == Found(AvailableArea(Some(AreaRef(1, 0)), 0), s);
    var r := PlaceSpec(f.state, OverlapItems()[2], f.area);
    assert |r.bins| == 2 && r.bins[0] == OverlapState(3).bins[0] && r.bins[1] == OverlapState(3).bins[1];
    assert |r.areas| == 2 && r.areas[0] == OverlapState(3).areas[0] && r.areas[1] == OverlapState(3).areas[1];
    assert r.bins == OverlapState(3).bins;
    assert r.areas == OverlapState(3).areas;
  }

  /** Item 4 fits only the area of bin 0 that item 3 already covers. */
  lemma OverlapStep3()
    ensures OverlapStepHolds(3)
  {
    var s := OverlapState(3);
    var size := OverlapItems()[3].rect.size;
    assert LastBinFit(s.areas, size) == Some(AreaRef(0, 0)) by {
      assert FirstFit(s.areas[1], size) == None;
    }
    var f := Find(OverlapMenu(), s, size);
    assert f == Found(AvailableArea(Some(AreaRef(0, 0)), 0), s);
    var r := PlaceSpec(f.state, OverlapItems()[3], f.area);
    assert |r.bins| == 2 && r.bins[0] == OverlapState(4).bins[0] && r.bins[1] == OverlapState(4).bins[1];
    assert |r.areas| == 2 && r.areas[0] == OverlapState(4).areas[0] && r.areas[1] == OverlapState(4).areas[1];
    assert r.bins == OverlapState(4).bins;
    assert r.areas == OverlapState(4).areas;
  }

  /** A step that holds moves `Pack` on by one item. */
  lemma OverlapPackStep(k: nat)
    requires k < 4 && OverlapStepHolds(k)
    ensures Pack(OverlapMenu(), OverlapItems()[k..], OverlapState(k)).state == Pack(OverlapMenu(), OverlapItems()[k + 1..], OverlapState(k + 1)).state
    ensures Pack(OverlapMenu(), OverlapItems()[k..], OverlapState(k)).placed == Pack(OverlapMenu(), OverlapItems()[k + 1..], OverlapState(k + 1)).placed + 1
  {
    assert OverlapItems()[k..][1..] == OverlapItems()[k + 1..];
  }

  /** `PackBins` places all four overlap items and ends in state 4. */
  lemma OverlapPack(menu: seq<Vec2Many>, items: seq<RectNamed>)
    requires menu == OverlapMenu() && items == OverlapItems()
    ensures Pack(menu, items, Initial(menu)) == Packed(OverlapState(4), 4)
  {
    assert Initial(menu) == OverlapState(0);
    assert items[0..] == items;
    OverlapStep0();
    OverlapPackStep(0);
    OverlapStep1();
    OverlapPackStep(1);
    OverlapStep2();
    OverlapPackStep(2);
    OverlapStep3();
    OverlapPackStep(3);
    assert items[4..] == [];
  }

  /**
   * Overlap as written: with one unlimited 10x10 bin size and items of
   * 10x4, 10x7, 10x3 and 10x6, the third item takes its area from bin 1 but
   * is recorded in bin 0, and the fourth is then placed over it in bin 0.
   */
  lemma PackBinsOverlaps(menu: seq<Vec2Many>, items: seq<RectNamed>)
    requires menu == OverlapMenu() && items == OverlapItems()
    ensures Pack(menu, items, Initial(menu)) == Packed(OverlapState(4), |items|)
    ensures !Sound(OverlapState(4), OverlapSizes())
  {
    OverlapPack(menu, items);
    OverlapStateUnsound();
  }

  /** `OverlapSizes` gives each overlap item its size, and the sizes are not negative. */
  lemma OverlapSizesKnown()
    ensures SizesKnown(OverlapItems(), OverlapSizes())
  {
  }

  /** Items 3 and 4 overlap in bin 0 of state 4. */
  lemma OverlapStateUnsound()
    ensures OverlapState(4).bins[0].rects == [P(0.0, 0.0, 1), P(0.0, 7.0, 3), P(0.0, 4.0, 4)]
    ensures Contains(Footprint(P(0.0, 7.0, 3), OverlapSizes()), 5.0, 8.0)
    ensures Contains(Footprint(P(0.0, 4.0, 4), OverlapSizes()), 5.0, 8.0)
    ensures !Sound(OverlapState(4), OverlapSizes())
  {
    var s4 := OverlapState(4);
    var sizes := OverlapSizes();
    assert s4.bins[0].rects[1] == P(0.0, 7.0, 3) && s4.bins[0].rects[2] == P(0.0, 4.0, 4);
    assert !Disjoint(Footprint(P(0.0, 7.0, 3), sizes), Footprint(P(0.0, 4.0, 4), sizes));
    assert !BinSound(s4.bins[0], s4.areas[0], sizes);
  }

  /**
   * Every fitting menu entry opens a bin as written: with two unlimited bin
   * sizes that both fit a 5x5 item, two bins are opened and the item goes
   * into the second, leaving the first empty.
   */
  lemma PackBinsLeavesEmptyBin()
    ensures var menu := [Vec2Many(Vec2(10.0, 10.0), Infinite), Vec2Many(Vec2(20.0, 20.0), Infinite)];
      var r := Pack(menu, [Item(1, 5.0, 5.0)], Initial(menu));
      && r.placed == 1 && |r.state.bins| == 2 && r.state.bins[0].rects == [] && r.state.bins[1].rects == [P(0.0, 0.0, 1)]
      && !NoEmptyBins(r.state.bins)
  {
    var menu := [Vec2Many(Vec2(10.0, 10.0), Infinite), Vec2Many(Vec2(20.0, 20.0), Infinite)];
    var items := [Item(1, 5.0, 5.0)];
    var s0 := Initial(menu);
    assert s0 == PackState([], [0, 0], []);
    var s1 := PackState([Bin(Vec2(10.0, 10.0), []), Bin(Vec2(20.0, 20.0), [])], [1, 1],
      [[R(0.0, 0.0, 10.0, 10.0)], [R(0.0, 0.0, 20.0, 20.0)]]);
    assert OpenBins(menu, s0, items[0].rect.size, 1).state == PackState([Bin(Vec2(10.0, 10.0), [])], [1, 0], [[R(0.0, 0.0, 10.0, 10.0)]]);
    assert Find(menu, s0, items[0].rect.size) == Found(AvailableArea(Some(AreaRef(1, 0)), 1), s1);
    assert Pack(menu, items, s0).state == PlaceSpec(s1, items[0], AvailableArea(Some(AreaRef(1, 0)), 1)) by {
      assert items[1..] == [];
    }
  }

  /**
   * Counts never zeroed, as written: `used_bins_count` is created with room
   * for one count per menu entry but with length 0, so the counts read are
   * whatever the memory held. A stale count of 1 exhausts a menu entry of
   * quantity 1, and a 1x1 item is not placed at all; zero counts place it.
   */
  lemma StaleCountsBlockPacking()
    ensures var menu := [Vec2Many(Vec2(10.0, 10.0), Finite(1))];
      var items := [Item(1, 1.0, 1.0)];
      && Pack(menu, items, PackState([], [1], [])).placed == 0
      && Pack(menu, items, Initial(menu)).placed == 1
  {
    var menu := [Vec2Many(Vec2(10.0, 10.0), Finite(1))];
    var items := [Item(1, 1.0, 1.0)];
    assert Initial(menu) == PackState([], [0], []);
    assert Find(menu, PackState([], [1], []), items[0].rect.size).area.area.None?;
    assert Find(menu, Initial(menu), items[0].rect.size).area.area.Some?;
    assert Pack(menu, items[1..], PlaceSpec(Find(menu, Initial(menu), items[0].rect.size).state, items[0],
      Find(menu, Initial(menu), items[0].rect.size).area)).placed == 0 by {
      assert items[1..] == [];
    }
  }

  /**
   * With the counts zeroed, as `PackBins` intends, the first item is placed
   * whenever some menu entry of a non-zero quantity fits it.
   */
  lemma PackBinsPlacesFirstItem(menu: seq<Vec2Many>, items: seq<RectNamed>, i: nat)
    requires |items| > 0 && i < |menu| && Fits(menu[i].size, items[0].rect.size) && menu[i].quantity != Finite(0)
    ensures Pack(menu, items, Initial(menu)).placed >= 1
  {
    var st := Initial(menu);
    assert Qualifies(menu[i], st.used[i], items[0].rect.size);
    PackingProperties.FindFails(menu, st, items[0].rect.size);
  }
}
