/**
 * The geometry of the guillotine split (src/bin_packing.cpp:107-126):
 * rectangles as half-open point sets `[left, right) x [top, bottom)`.
 */
module Guillotine {
  import opened Vectors
  import opened Shapes
  import opened BinPacking

  /** A rectangle whose width and height are not negative. */
  predicate Proper(r: Rect) {
    r.Width() >= 0.0 && r.Height() >= 0.0
  }

  /** The point `(x, y)` lies in `r`. */
  predicate Contains(r: Rect, x: real, y: real) {
    r.Left() <= x < r.Right() && r.Top() <= y < r.Bottom()
  }

  /** `r` lies inside `outer`. */
  predicate Within(r: Rect, outer: Rect) {
    outer.Left() <= r.Left() && r.Right() <= outer.Right() && outer.Top() <= r.Top() && r.Bottom() <= outer.Bottom()
  }

  /** `r` and `s` are separated by a vertical or a horizontal line. */
  predicate Disjoint(r: Rect, s: Rect) {
    r.Right() <= s.Left() || s.Right() <= r.Left() || r.Bottom() <= s.Top() || s.Bottom() <= r.Top()
  }

  /** Separated rectangles share no point. */
  lemma DisjointShareNoPoint(r: Rect, s: Rect, x: real, y: real)
    requires Disjoint(r, s)
    ensures !(Contains(r, x, y) && Contains(s, x, y))
  {
  }

  /** A rectangle inside `outer` keeps apart from whatever `outer` keeps apart from. */
  lemma WithinDisjoint(r: Rect, outer: Rect, s: Rect)
    requires Within(r, outer) && Disjoint(outer, s)
    ensures Disjoint(r, s) && Disjoint(s, r)
  {
  }

  /** The item's rectangle when it is placed at the corner of `r`. */
  function ItemAt(r: Rect, size: Vec2): Rect {
    Rect(r.pos, size)
  }

  /**
   * Piece `a` starts below the item and is as wide as the item; piece `b`
   * starts right of the item and keeps the whole height of `r`.
   */
  lemma SplitVerticalPieces(r: Rect, size: Vec2)
    ensures SplitVertical(r, size).a == Rect(Vec2(r.pos.x, r.pos.y + size.y), Vec2(size.x, r.size.y - size.y))
    ensures SplitVertical(r, size).b == Rect(Vec2(r.pos.x + size.x, r.pos.y), Vec2(r.size.x - size.x, r.size.y))
  {
  }

  /**
   * When the item fits, the item and the two pieces are proper, lie inside
   * `r`, are pairwise disjoint and cover `r`: every point of `r` lies in
   * exactly one of the three.
   */
  lemma SplitVerticalTiles(r: Rect, size: Vec2)
    requires Proper(r) && size.x >= 0.0 && size.y >= 0.0 && Fits(r.size, size)
    ensures var p := SplitVertical(r, size); var item := ItemAt(r, size);
      && Proper(item) && Proper(p.a) && Proper(p.b)
      && Within(item, r) && Within(p.a, r) && Within(p.b, r)
      && Disjoint(item, p.a) && Disjoint(item, p.b) && Disjoint(p.a, p.b)
      && (forall x, y :: Contains(r, x, y) <==> Contains(item, x, y) || Contains(p.a, x, y) || Contains(p.b, x, y))
  {
    SplitVerticalPieces(r, size);
  }

  /** An exact fit leaves two pieces without area: `a` has no height and `b` no width. */
  lemma SplitVerticalExactFit(r: Rect)
    ensures SplitVertical(r, r.size).a.Height() == 0.0
    ensures SplitVertical(r, r.size).b.Width() == 0.0
  {
  }
}
