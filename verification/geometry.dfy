/** Planar geometry shared by the point field, the ripples and the intensity pass. */
module Geometry {

  /** An anchor location on the canvas plane. */
  datatype Point = Point(x: real, y: real)

  /** The square of the Euclidean distance; `distance` in index.js is its square root. */
  function SquaredDistance(p: Point, q: Point): real
  {
    (q.x - p.x) * (q.x - p.x) + (q.y - p.y) * (q.y - p.y)
  }

  function Abs(a: real): (r: real)
    ensures 0.0 <= r && (r == a || r == -a)
  {
    if a < 0.0 then -a else a
  }

  lemma SquaredDistanceSymmetric(p: Point, q: Point)
    ensures SquaredDistance(p, q) == SquaredDistance(q, p)
  {
  }

  /** A coordinate difference inside [0, w] squares to at most w * w. */
  lemma SquareWithin(a: real, b: real, w: real)
    requires 0.0 <= a <= w && 0.0 <= b <= w
    ensures (a - b) * (a - b) <= w * w
  {
    var d := a - b;
    assert -w <= d <= w;
    assert (w - d) * (w + d) >= 0.0 by {
      assert w - d >= 0.0 && w + d >= 0.0;
    }
    assert w * w - d * d == (w - d) * (w + d);
  }

  /** Two points of the rectangle [0, w] x [0, h] are at most its diagonal apart. */
  lemma DistanceWithinRectangle(p: Point, q: Point, w: real, h: real)
    requires 0.0 <= p.x <= w && 0.0 <= q.x <= w
    requires 0.0 <= p.y <= h && 0.0 <= q.y <= h
    ensures SquaredDistance(p, q) <= w * w + h * h
  {
    SquareWithin(q.x, p.x, w);
    SquareWithin(q.y, p.y, h);
  }
}
