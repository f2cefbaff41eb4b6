/** Shape values and rectangle accessors (src/shapes.cpp). */
module Shapes {
  import opened Vectors

  /** An axis-aligned rectangle: top-left corner and size. */
  datatype Rect = Rect(pos: Vec2, size: Vec2) {
    function X(): real { pos.x }
    function Y(): real { pos.y }
    function Width(): real { size.x }
    function Height(): real { size.y }
    function Left(): real { pos.x }
    function Top(): real { pos.y }
    function Right(): real { pos.x + size.x }
    function Bottom(): real { pos.y + size.y }
  }

  /** `Rect(x, y, width, height)`. */
  function RectOf(x: real, y: real, width: real, height: real): Rect {
    Rect(Vec2(x, y), Vec2(width, height))
  }

  datatype Text = Text(pos: Vec2, text: string) {
    function X(): real { pos.x }
    function Y(): real { pos.y }
  }

  /** `Text(x, y, text)`. */
  function TextOf(x: real, y: real, text: string): Text {
    Text(Vec2(x, y), text)
  }

  datatype Line = Line(start: Vec2, end: Vec2)

  /** `Line(x1, y1, x2, y2)`. */
  function LineOf(x1: real, y1: real, x2: real, y2: real): Line {
    Line(Vec2(x1, y1), Vec2(x2, y2))
  }

  datatype Circle = Circle(center: Vec2, radius: real)

  /** `Circle(x, y, radius)`. */
  function CircleOf(x: real, y: real, radius: real): Circle {
    Circle(Vec2(x, y), radius)
  }

  /** The coordinate constructor stores its four arguments where the accessors find them. */
  lemma RectOfAccessors(x: real, y: real, w: real, h: real)
    ensures RectOf(x, y, w, h).pos == Vec2(x, y) && RectOf(x, y, w, h).size == Vec2(w, h)
    ensures RectOf(x, y, w, h).X() == x && RectOf(x, y, w, h).Left() == x
    ensures RectOf(x, y, w, h).Y() == y && RectOf(x, y, w, h).Top() == y
    ensures RectOf(x, y, w, h).Width() == w && RectOf(x, y, w, h).Height() == h
  {
  }

  /** The far edges are consistent with the near edges and the size. */
  lemma RectExtents(r: Rect)
    ensures r.Right() - r.Left() == r.Width()
    ensures r.Bottom() - r.Top() == r.Height()
    ensures r.X() == r.Left() && r.Y() == r.Top()
  {
  }

  /** The `Text`, `Line` and `Circle` coordinate constructors store their arguments unchanged. */
  lemma ShapeConstructorsStore(x: real, y: real, x2: real, y2: real, r: real, t: string)
    ensures TextOf(x, y, t).X() == x && TextOf(x, y, t).Y() == y && TextOf(x, y, t).text == t
    ensures LineOf(x, y, x2, y2).start == Vec2(x, y) && LineOf(x, y, x2, y2).end == Vec2(x2, y2)
    ensures CircleOf(x, y, r).center == Vec2(x, y) && CircleOf(x, y, r).radius == r
  {
  }
}
