/**
 * Two-component vectors (src/vec.cpp). The source's `float` components are
 * modelled as mathematical reals, so there is no rounding.
 */
module Vectors {

  /** A value of the source's `Vec2`. */
  datatype Vec2 = Vec2(x: real, y: real)

  /** The Direct2D point type that `Vec2` converts to and from. */
  datatype D2Point = D2Point(x: real, y: real)

  /** `Vec2::D2Point()`. */
  function ToD2Point(v: Vec2): D2Point {
    D2Point(v.x, v.y)
  }

  /** The `Vec2(D2D1_POINT_2F)` constructor. */
  function FromD2Point(p: D2Point): Vec2 {
    Vec2(p.x, p.y)
  }

  /** `a + b`, which builds a new vector and leaves both operands alone. */
  function Add(a: Vec2, b: Vec2): Vec2 {
    Vec2(a.x + b.x, a.y + b.y)
  }

  /** `a - b`. */
  function Sub(a: Vec2, b: Vec2): Vec2 {
    Vec2(a.x - b.x, a.y - b.y)
  }

  /** Converting to a Direct2D point and back gives the same vector, and the other way round. */
  lemma D2PointRoundTrip(v: Vec2, p: D2Point)
    ensures FromD2Point(ToD2Point(v)) == v
    ensures ToD2Point(FromD2Point(p)) == p
  {
  }

  /** `+` and `-` are inverse, componentwise operations. */
  lemma AddSubInverse(a: Vec2, b: Vec2)
    ensures Sub(Add(a, b), b) == a
    ensures Add(Sub(a, b), b) == a
    ensures Add(a, b).x == a.x + b.x && Add(a, b).y == a.y + b.y
    ensures Sub(a, b).x == a.x - b.x && Sub(a, b).y == a.y - b.y
  {
  }

  /**
   * A `Vec2` lvalue: the receiver of `+=` and `-=`, whose fields those operators
   * update in place. The argument `b` is passed by reference and may be the
   * receiver itself.
   */
  class Vec2Var {
    var x: real
    var y: real

    /** `Vec2(x, y)`. */
    constructor (x: real, y: real)
      ensures this.x == x && this.y == y
    {
      this.x, this.y := x, y;
    }

    function Value(): Vec2
      reads this
    {
      Vec2(x, y)
    }

    /** `*this += b`: returns the receiver itself. */
    method AddAssign(b: Vec2Var) returns (self: Vec2Var)
      modifies this
      ensures self == this
      ensures Value() == Add(old(Value()), old(b.Value()))
      ensures b != this ==> b.Value() == old(b.Value())
    {
      x := x + b.x;
      y := y + b.y;
      self := this;
    }

    /** `*this -= b`: returns the receiver itself. */
    method SubAssign(b: Vec2Var) returns (self: Vec2Var)
      modifies this
      ensures self == this
      ensures Value() == Sub(old(Value()), old(b.Value()))
      ensures b != this ==> b.Value() == old(b.Value())
    {
      x := x - b.x;
      y := y - b.y;
      self := this;
    }
  }
}
