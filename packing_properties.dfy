/**
 * What `FindNextAvailableArea`, `Place` and `PackBins` (src/bin_packing.cpp)
 * do to the packer's state, proved about the functions the methods of
 * `BinPacking.Packer` are proved equal to.
 */
module PackingProperties {
  import opened Wrappers
  import opened Vectors
  import opened Shapes
  import opened BinPacking

  /** The indices among the first `n` menu entries that qualify for `size`, in menu order. */
  function Qualifying(menu: seq<Vec2Many>, used: seq<nat>, size: Vec2, n: nat): (q: seq<nat>)
    requires |used| == |menu| && n <= |menu|
    ensures forall k :: 0 <= k < |q| ==> q[k] < n && Qualifies(menu[q[k]], used[q[k]], size)
    ensures forall k, l :: 0 <= k < l < |q| ==> q[k] < q[l]
  {
    if n == 0 then []
    else Qualifying(menu, used, size, n - 1) + (if Qualifies(menu[n - 1], used[n - 1], size) then [n - 1] else [])
  }

  /** Every qualifying entry among the first `n` is listed. */
  lemma {:induction false} QualifyingComplete(menu: seq<Vec2Many>, used: seq<nat>, size: Vec2, n: nat)
    requires |used| == |menu| && n <= |menu|
    ensures forall i :: 0 <= i < n && Qualifies(menu[i], used[i], size) ==> i in Qualifying(menu, used, size, n)
  {
    if n > 0 {
      QualifyingComplete(menu, used, size, n - 1);
    }
  }

  /** The bins opened for the menu entries `q`, in order: each empty, of its entry's size. */
  function OpenedBins(menu: seq<Vec2Many>, q: seq<nat>): (bins: seq<Bin>)
    requires forall k :: 0 <= k < |q| ==> q[k] < |menu|
    ensures |bins| == |q| && forall k :: 0 <= k < |q| ==> bins[k] == Bin(menu[q[k]].size, [])
  {
    seq(|q|, k requires 0 <= k < |q| => Bin(menu[q[k]].size, []))
  }

  /** The area lists of the bins opened for `q`: one free area covering the whole bin. */
  function OpenedAreas(menu: seq<Vec2Many>, q: seq<nat>): (areas: seq<seq<Rect>>)
    requires forall k :: 0 <= k < |q| ==> q[k] < |menu|
    ensures |areas| == |q| && forall k :: 0 <= k < |q| ==> areas[k] == [Rect(Vec2(0.0, 0.0), menu[q[k]].size)]
  {
    seq(|q|, k requires 0 <= k < |q| => [Rect(Vec2(0.0, 0.0), menu[q[k]].size)])
  }

  /** The menu loop counts one more use of exactly the entries that qualify. */
  lemma {:induction false} OpenBinsCounts(menu: seq<Vec2Many>, st: PackState, size: Vec2, n: nat)
    requires WellFormed(menu, st) && n <= |menu|
    ensures forall i :: 0 <= i < |menu| ==>
      OpenBins(menu, st, size, n).state.used[i] == st.used[i] + (if i < n && Qualifies(menu[i], st.used[i], size) then 1 else 0)
  {
    if n > 0 {
      OpenBinsCounts(menu, st, size, n - 1);
    }
  }

  /**
   * The menu loop opens one bin per qualifying entry, in menu order, each
   * with a single free area covering it at (0, 0), after the bins already open.
   */
  lemma {:induction false} OpenBinsOpens(menu: seq<Vec2Many>, st: PackState, size: Vec2, n: nat)
    requires WellFormed(menu, st) && n <= |menu|
    ensures var f := OpenBins(menu, st, size, n); var q := Qualifying(menu, st.used, size, n);
      && f.state.bins == st.bins + OpenedBins(menu, q)
      && f.state.areas == st.areas + OpenedAreas(menu, q)
  {
    if n > 0 {
      OpenBinsCounts(menu, st, size, n - 1);
      OpenBinsOpens(menu, st, size, n - 1);
      var q := Qualifying(menu, st.used, size, n - 1);
      if Qualifies(menu[n - 1], st.used[n - 1], size) {
        assert Qualifying(menu, st.used, size, n) == q + [n - 1];
        assert OpenedBins(menu, q + [n - 1]) == OpenedBins(menu, q) + [Bin(menu[n - 1].size, [])];
        assert OpenedAreas(menu, q + [n - 1]) == OpenedAreas(menu, q) + [[Rect(Vec2(0.0, 0.0), menu[n - 1].size)]];
      }
    }
  }

  /**
   * The menu loop returns the area of the last bin it opened, and when no
   * entry qualifies it returns no area and changes nothing.
   */
  lemma {:induction false} OpenBinsResult(menu: seq<Vec2Many>, st: PackState, size: Vec2, n: nat)
    requires WellFormed(menu, st) && n <= |menu|
    ensures var f := OpenBins(menu, st, size, n); var q := Qualifying(menu, st.used, size, n);
      && (|q| > 0 ==> f.area == AvailableArea(Some(AreaRef(|st.areas| + |q| - 1, 0)), |st.bins| + |q| - 1))
      && (|q| == 0 ==> f == Found(AvailableArea(None, 0), st))
  {
    if n > 0 {
      OpenBinsCounts(menu, st, size, n - 1);
      OpenBinsOpens(menu, st, size, n - 1);
      OpenBinsResult(menu, st, size, n - 1);
    }
  }

  /**
   * When some open bin has a free area that fits, `FindNextAvailableArea`
   * opens no bin and changes no count; it returns the first fitting area of
   * the last bin that has one, and leaves `bin_id` at 0.
   */
  lemma FindReusesArea(menu: seq<Vec2Many>, st: PackState, size: Vec2, b: nat, i: nat)
    requires WellFormed(menu, st) && b < |st.areas| && i < |st.areas[b]| && Fits(st.areas[b][i].size, size)
    ensures var f := Find(menu, st, size);
      && f.state == st && f.area.binId == 0 && f.area.area.Some?
      && var ref := f.area.area.value;
      && ref.bin < |st.areas| && ref.index < |st.areas[ref.bin]| && Fits(st.areas[ref.bin][ref.index].size, size)
      && b <= ref.bin
      && (forall j :: 0 <= j < ref.index ==> !Fits(st.areas[ref.bin][j].size, size))
      && (forall c, j :: ref.bin < c < |st.areas| && 0 <= j < |st.areas[c]| ==> !Fits(st.areas[c][j].size, size))
  {
  }

  /** No free area of any open bin fits `size`. */
  predicate NoFreeFit(areas: seq<seq<Rect>>, size: Vec2) {
    forall b, j :: 0 <= b < |areas| && 0 <= j < |areas[b]| ==> !Fits(areas[b][j].size, size)
  }

  /** No menu entry qualifies for `size`. */
  predicate NoneQualifies(menu: seq<Vec2Many>, used: seq<nat>, size: Vec2)
    requires |used| == |menu|
  {
    forall i :: 0 <= i < |menu| ==> !Qualifies(menu[i], used[i], size)
  }

  lemma NoFreeFitIsNoLastBinFit(areas: seq<seq<Rect>>, size: Vec2)
    ensures NoFreeFit(areas, size) <==> LastBinFit(areas, size).None?
  {
    var r := LastBinFit(areas, size);
    if r.Some? {
      assert Fits(areas[r.value.bin][r.value.index].size, size);
    }
  }

  lemma NoneQualifiesIsEmpty(menu: seq<Vec2Many>, used: seq<nat>, size: Vec2)
    requires |used| == |menu|
    ensures NoneQualifies(menu, used, size) <==> |Qualifying(menu, used, size, |menu|)| == 0
  {
    var q := Qualifying(menu, used, size, |menu|);
    QualifyingComplete(menu, used, size, |menu|);
    if |q| > 0 {
      assert Qualifies(menu[q[0]], used[q[0]], size);
    }
  }

  /**
   * `FindNextAvailableArea` returns no area exactly when no free area fits
   * and no menu entry qualifies, and then it changes nothing.
   */
  lemma FindFails(menu: seq<Vec2Many>, st: PackState, size: Vec2)
    requires WellFormed(menu, st)
    ensures Find(menu, st, size).area.area.None? <==> NoFreeFit(st.areas, size) && NoneQualifies(menu, st.used, size)
    ensures Find(menu, st, size).area.area.None? ==> Find(menu, st, size).state == st
  {
    OpenBinsResult(menu, st, size, |menu|);
    NoFreeFitIsNoLastBinFit(st.areas, size);
    NoneQualifiesIsEmpty(menu, st.used, size);
  }

  /** No finite menu entry has been used more often than its quantity allows. */
  ghost predicate WithinQuota(menu: seq<Vec2Many>, used: seq<nat>)
    requires |used| == |menu|
  {
    forall i :: 0 <= i < |menu| && menu[i].quantity.Finite? ==> used[i] <= menu[i].quantity.n
  }

  /**
   * `FindNextAvailableArea` keeps every count within its quantity, and an
   * infinite entry never blocks: when no free area fits, an infinite entry
   * whose size fits always opens a bin.
   */
  lemma FindKeepsQuota(menu: seq<Vec2Many>, st: PackState, size: Vec2)
    requires WellFormed(menu, st) && WithinQuota(menu, st.used)
    ensures WithinQuota(menu, Find(menu, st, size).state.used)
    ensures LastBinFit(st.areas, size).None? ==>
      forall i :: 0 <= i < |menu| && menu[i].quantity.Infinite? && Fits(menu[i].size, size) ==>
        Find(menu, st, size).state.used[i] == st.used[i] + 1
  {
    OpenBinsCounts(menu, st, size, |menu|);
  }

  /** The multiset of ids placed in a list of placements. */
  function IdsOf(rects: seq<Vec2Named>): multiset<nat> {
    if |rects| == 0 then multiset{} else IdsOf(rects[..|rects| - 1]) + multiset{rects[|rects| - 1].id}
  }

  /** The multiset of ids placed in all bins. */
  function PlacedIds(bins: seq<Bin>): multiset<nat> {
    if |bins| == 0 then multiset{} else PlacedIds(bins[..|bins| - 1]) + IdsOf(bins[|bins| - 1].rects)
  }

  /** The multiset of the items' ids. */
  function ItemIds(items: seq<RectNamed>): (m: multiset<nat>)
    ensures |m| == |items|
  {
    if |items| == 0 then multiset{} else multiset{items[0].id} + ItemIds(items[1..])
  }

  lemma {:induction false} PlacedIdsConcat(front: seq<Bin>, back: seq<Bin>)
    ensures PlacedIds(front + back) == PlacedIds(front) + PlacedIds(back)
    decreases |back|
  {
    if |back| == 0 {
      assert front + back == front;
    } else {
      var all := front + back;
      var last := |back| - 1;
      assert all[..|all| - 1] == front + back[..last];
      assert all[|all| - 1] == back[last];
      PlacedIdsConcat(front, back[..last]);
      assert PlacedIds(all) == PlacedIds(front + back[..last]) + IdsOf(back[last].rects);
      assert PlacedIds(back) == PlacedIds(back[..last]) + IdsOf(back[last].rects);
    }
  }

  /** Appending a placement to one bin adds its id to the ids placed. */
  lemma PlacedIdsAppend(bins: seq<Bin>, k: nat, p: Vec2Named)
    requires k < |bins|
    ensures PlacedIds(bins[k := Bin(bins[k].size, bins[k].rects + [p])]) == PlacedIds(bins) + multiset{p.id}
  {
    var before := bins[k];
    var after := Bin(before.size, before.rects + [p]);
    var front := bins[..k];
    var back := bins[k + 1..];
    assert bins == front + [before] + back;
    assert bins[k := after] == front + [after] + back;
    assert [after][..0] == [] && [before][..0] == [];
    assert (before.rects + [p])[..|before.rects|] == before.rects;
    assert PlacedIds([after]) == PlacedIds([before]) + multiset{p.id};
    PlacedIdsConcat(front + [before], back);
    PlacedIdsConcat(front, [before]);
    PlacedIdsConcat(front + [after], back);
    PlacedIdsConcat(front, [after]);
  }

  lemma {:induction false} PlacedIdsOpen(bins: seq<Bin>, added: seq<Bin>)
    requires forall k :: 0 <= k < |added| ==> added[k].rects == []
    ensures PlacedIds(bins + added) == PlacedIds(bins)
    decreases |added|
  {
    if |added| > 0 {
      var all := bins + added;
      assert all[..|all| - 1] == bins + added[..|added| - 1];
      PlacedIdsOpen(bins, added[..|added| - 1]);
    } else {
      assert bins + added == bins;
    }
  }

  /** `FindNextAvailableArea` opens only empty bins, so it places nothing. */
  lemma FindPlacesNothing(menu: seq<Vec2Many>, st: PackState, size: Vec2)
    requires WellFormed(menu, st)
    ensures PlacedIds(Find(menu, st, size).state.bins) == PlacedIds(st.bins)
  {
    if LastBinFit(st.areas, size).None? {
      OpenBinsOpens(menu, st, size, |menu|);
      PlacedIdsOpen(st.bins, OpenedBins(menu, Qualifying(menu, st.used, size, |menu|)));
    }
  }

  /**
   * `Place` appends exactly one placement, at the chosen area's corner and
   * with the item's id, to bin `bin_id`; it overwrites the chosen area with
   * piece `a` and appends piece `b` to the areas of bin `bin_id`; no count,
   * no other bin and no other area list changes.
   */
  lemma PlaceRecordsOnePlacement(st: PackState, item: RectNamed, area: AvailableArea)
    requires Placeable(st, area)
    ensures var r := PlaceSpec(st, item, area); var ref := area.area.value;
      var chosen := st.areas[ref.bin][ref.index]; var pieces := SplitVertical(chosen, item.rect.size);
      && r.used == st.used && |r.bins| == |st.bins| && |r.areas| == |st.areas|
      && r.bins[area.binId] == Bin(st.bins[area.binId].size, st.bins[area.binId].rects + [Vec2Named(chosen.pos, item.id)])
      && (forall b :: 0 <= b < |st.bins| && b != area.binId ==> r.bins[b] == st.bins[b])
      && r.areas[ref.bin][ref.index] == pieces.a
      && r.areas[area.binId] == (if ref.bin == area.binId then st.areas[ref.bin][ref.index := pieces.a] else st.areas[area.binId]) + [pieces.b]
      && (ref.bin != area.binId ==> r.areas[ref.bin] == st.areas[ref.bin][ref.index := pieces.a])
      && (forall b :: 0 <= b < |st.areas| && b != area.binId && b != ref.bin ==> r.areas[b] == st.areas[b])
  {
  }

  /** `Place` adds the item's id, once, to the ids placed. */
  lemma PlaceAddsOneId(st: PackState, item: RectNamed, area: AvailableArea)
    requires Placeable(st, area)
    ensures PlacedIds(PlaceSpec(st, item, area).bins) == PlacedIds(st.bins) + multiset{item.id}
  {
    var chosen := st.areas[area.area.value.bin][area.area.value.index];
    PlacedIdsAppend(st.bins, area.binId, Vec2Named(chosen.pos, item.id));
  }

  /**
   * `PackBins` from state `st` places items in input order: it places a
   * prefix of the items, and the ids it adds are exactly those of that prefix.
   */
  lemma {:induction false} PackPlacesPrefix(menu: seq<Vec2Many>, items: seq<RectNamed>, st: PackState)
    requires WellFormed(menu, st)
    ensures Pack(menu, items, st).placed <= |items|
    ensures PlacedIds(Pack(menu, items, st).state.bins) == PlacedIds(st.bins) + ItemIds(items[..Pack(menu, items, st).placed])
    decreases |items|
  {
    if |items| == 0 {
      assert items[..0] == [];
    } else {
      var f := Find(menu, st, items[0].rect.size);
      FindPlacesNothing(menu, st, items[0].rect.size);
      if f.area.area.None? {
        assert items[..0] == [];
      } else {
        FindPlaceable(menu, st, items[0].rect.size);
        var next := PlaceSpec(f.state, items[0], f.area);
        PlaceAddsOneId(f.state, items[0], f.area);
        PackPlacesPrefix(menu, items[1..], next);
        ItemIdsCons(items, Pack(menu, items[1..], next).placed + 1);
      }
    }
  }

  lemma ItemIdsCons(items: seq<RectNamed>, n: nat)
    requires 0 < n <= |items|
    ensures ItemIds(items[..n]) == multiset{items[0].id} + ItemIds(items[1..][..n - 1])
  {
    var prefix := items[..n];
    assert prefix[0] == items[0];
    assert prefix[1..] == items[1..][..n - 1];
  }

  /** Every item `PackBins` places adds one placement. */
  lemma PackCountsPlacements(menu: seq<Vec2Many>, items: seq<RectNamed>, st: PackState)
    requires WellFormed(menu, st)
    ensures |PlacedIds(Pack(menu, items, st).state.bins)| == |PlacedIds(st.bins)| + Pack(menu, items, st).placed
  {
    PackPlacesPrefix(menu, items, st);
  }

  /**
   * `PackBins` stops at the first item for which no area is found: when it
   * placed fewer items than it was given, the next item finds no area in the
   * state it returns.
   */
  lemma {:induction false} PackStopsAtFailure(menu: seq<Vec2Many>, items: seq<RectNamed>, st: PackState)
    requires WellFormed(menu, st)
    ensures var r := Pack(menu, items, st);
      r.placed < |items| ==> Find(menu, r.state, items[r.placed].rect.size).area.area.None?
    decreases |items|
  {
    if |items| > 0 {
      var f := Find(menu, st, items[0].rect.size);
      if f.area.area.None? {
        FindFails(menu, st, items[0].rect.size);
      } else {
        FindPlaceable(menu, st, items[0].rect.size);
        PackStopsAtFailure(menu, items[1..], PlaceSpec(f.state, items[0], f.area));
      }
    }
  }

  /** Started within quota, `PackBins` stays within quota. */
  lemma {:induction false} PackKeepsQuota(menu: seq<Vec2Many>, items: seq<RectNamed>, st: PackState)
    requires WellFormed(menu, st) && WithinQuota(menu, st.used)
    ensures WithinQuota(menu, Pack(menu, items, st).state.used)
    decreases |items|
  {
    if |items| > 0 {
      var f := Find(menu, st, items[0].rect.size);
      FindKeepsQuota(menu, st, items[0].rect.size);
      if f.area.area.Some? {
        FindPlaceable(menu, st, items[0].rect.size);
        PackKeepsQuota(menu, items[1..], PlaceSpec(f.state, items[0], f.area));
      }
    }
  }

  /**
   * With every count starting at zero, as `PackBins` intends, no finite menu
   * entry is ever used more often than its quantity allows.
   */
  lemma PackBinsRespectsQuota(menu: seq<Vec2Many>, items: seq<RectNamed>)
    ensures WithinQuota(menu, Pack(menu, items, Initial(menu)).state.used)
  {
    PackKeepsQuota(menu, items, Initial(menu));
  }
}
