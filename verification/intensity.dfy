/**
 * The intensity pass of animate(): every live ripple paints a ring of
 * thickness ShockwaveThickness onto a grid of cells GridSpacing apart, and
 * overlapping rings add up in one map, each write clamped to at most 1.
 */
module Intensity {
  import opened Geometry
  import opened Ripples

  const GridSpacing: int := 10
  const ShockwaveThickness: real := 25.0
  const HalfThickness: real := ShockwaveThickness / 2.0
  /** The share of a ripple's alpha its shockwave shows at the ring itself. */
  const ShockwaveFactor: real := 0.8

  /** A grid cell, keyed by its integer coordinates. */
  type Cell = (int, int)

  /** The distance function the pass measures with (Math.sqrt of the squared distance in index.js). */
  type Distance = (Point, Point) -> real

  function Min(a: real, b: real): (m: real)
    ensures m <= a && m <= b && (m == a || m == b)
  {
    if a <= b then a else b
  }

  /** `Math.floor(v / gridSpacing) * gridSpacing`: the grid line at or just below v. */
  function GridFloor(v: real): (g: int)
    ensures g % GridSpacing == 0
    ensures g as real <= v < g as real + GridSpacing as real
  {
    // The divisor is GridSpacing written as a real literal; the ensures
    // clauses above tie it to GridSpacing.
    (v / 10.0).Floor * GridSpacing
  }

  /** The bounding box a ripple's pass walks: its ring grown by a full ShockwaveThickness. */
  function MinX(r: Ripple): real { r.x - r.radius - ShockwaveThickness }
  function MaxX(r: Ripple): real { r.x + r.radius + ShockwaveThickness }
  function MinY(r: Ripple): real { r.y - r.radius - ShockwaveThickness }
  function MaxY(r: Ripple): real { r.y + r.radius + ShockwaveThickness }

  /** The cells the two grid loops visit for ripple r. */
  predicate Visited(r: Ripple, c: Cell)
  {
    && c.0 % GridSpacing == 0 && GridFloor(MinX(r)) <= c.0 && c.0 as real <= MaxX(r)
    && c.1 % GridSpacing == 0 && GridFloor(MinY(r)) <= c.1 && c.1 as real <= MaxY(r)
  }

  function CellPoint(c: Cell): Point
  {
    Point(c.0 as real, c.1 as real)
  }

  /** `Math.abs(dist - ripple.radius)`: how far the cell is from the ring. */
  function RingDistance(r: Ripple, c: Cell, dist: Distance): (d: real)
    ensures 0.0 <= d
  {
    Abs(dist(Point(r.x, r.y), CellPoint(c)) - r.radius)
  }

  /** A visited cell that lies within half the shockwave thickness of the ring. */
  predicate Lit(r: Ripple, c: Cell, dist: Distance)
  {
    Visited(r, c) && RingDistance(r, c, dist) <= HalfThickness
  }

  /** `shockwaveAlpha * (1 - distFromRing / halfThickness)`. */
  function Contribution(r: Ripple, c: Cell, dist: Distance): real
  {
    r.alpha * ShockwaveFactor * (1.0 - RingDistance(r, c, dist) / HalfThickness)
  }

  /** `intensityMap.get(key) || 0`: an absent cell reads as 0. */
  function Get(m: map<Cell, real>, c: Cell): real
  {
    if c in m then m[c] else 0.0
  }

  /** The value of cell c after ripple r has been painted over the value v. */
  function Paint(r: Ripple, c: Cell, dist: Distance, v: real): real
  {
    if Lit(r, c, dist) then Min(1.0, v + Contribution(r, c, dist)) else v
  }

  /** The value of cell c once the ripples of rs have been painted in order. */
  function Accumulated(rs: seq<Ripple>, c: Cell, dist: Distance): real
  {
    if |rs| == 0 then 0.0
    else Paint(rs[|rs| - 1], c, dist, Accumulated(rs[..|rs| - 1], c, dist))
  }

  /** Two distinct grid lines are at least GridSpacing apart. */
  lemma GridGap(a: int, b: int)
    requires a % GridSpacing == 0 && b % GridSpacing == 0 && a < b
    ensures a + GridSpacing <= b
  {
    assert a == GridSpacing * (a / GridSpacing);
    assert b == GridSpacing * (b / GridSpacing);
  }

  /** Column x of m holds the ripple's paint for exactly the cells above row y; everything else is as in m0. */
  ghost predicate ColumnPaintedAbove(m0: map<Cell, real>, m: map<Cell, real>, r: Ripple, dist: Distance, x: int, y: int)
  {
    && (forall c :: c in m <==> c in m0 || (c.0 == x && c.1 < y && Lit(r, c, dist)))
    && (forall c :: Get(m, c) == if c.0 == x && c.1 < y then Paint(r, c, dist, Get(m0, c)) else Get(m0, c))
  }

  /** One iteration of the inner grid loop paints cell (x, y) and moves on to the next row. */
  lemma ColumnStep(m0: map<Cell, real>, m: map<Cell, real>, m': map<Cell, real>, r: Ripple, dist: Distance, x: int, y: int)
    requires y % GridSpacing == 0 && Visited(r, (x, y))
    requires ColumnPaintedAbove(m0, m, r, dist, x, y)
    requires m' == if Lit(r, (x, y), dist) then m[(x, y) := Paint(r, (x, y), dist, Get(m, (x, y)))] else m
    ensures ColumnPaintedAbove(m0, m', r, dist, x, y + GridSpacing)
  {
    forall c: Cell | c.1 % GridSpacing == 0 && y < c.1
      ensures y + GridSpacing <= c.1
    {
      GridGap(y, c.1);
    }
  }

  /**
   * The body of the inner grid loop for the visited cell (x, y): measure its
   * distance from the ring and, when it is close enough, add the ring's
   * contribution, clamped at 1.
   */
  method PaintCell(m0: map<Cell, real>, r: Ripple, dist: Distance, x: int, y: int) returns (m: map<Cell, real>)
    requires Visited(r, (x, y))
    ensures m == if Lit(r, (x, y), dist) then m0[(x, y) := Paint(r, (x, y), dist, Get(m0, (x, y)))] else m0
  {
    m := m0;
    var shockwaveAlpha := r.alpha * ShockwaveFactor;
    var d := dist(Point(r.x, r.y), Point(x as real, y as real));
    var distFromRing := Abs(d - r.radius);
    assert distFromRing == RingDistance(r, (x, y), dist);
    if distFromRing <= HalfThickness {
      var normalizedDist := distFromRing / HalfThickness;
      var pointAlpha := shockwaveAlpha * (1.0 - normalizedDist);
      assert pointAlpha == Contribution(r, (x, y), dist) by {
        assert shockwaveAlpha * (1.0 - distFromRing / HalfThickness) == Contribution(r, (x, y), dist);
      }
      var current := Get(m, (x, y));
      m := m[(x, y) := Min(1.0, current + pointAlpha)];
    }
  }

  /**
   * The inner grid loop: walk column x of ripple r's bounding box from top to
   * bottom and add the ring's contribution to every cell close enough to the
   * ring.
   */
  method PaintColumn(m0: map<Cell, real>, r: Ripple, dist: Distance, x: int) returns (m: map<Cell, real>)
    requires x % GridSpacing == 0 && GridFloor(MinX(r)) <= x && x as real <= MaxX(r)
    ensures forall c :: c in m <==> c in m0 || (c.0 == x && Lit(r, c, dist))
    ensures forall c :: Get(m, c) == if c.0 == x then Paint(r, c, dist, Get(m0, c)) else Get(m0, c)
  {
    m := m0;
    var minY := MinY(r);
    var maxY := MaxY(r);
    var y := GridFloor(minY);
    ghost var top := y;
    while y as real <= maxY
      invariant y % GridSpacing == 0 && top <= y
      invariant ColumnPaintedAbove(m0, m, r, dist, x, y)
      decreases maxY.Floor - y
    {
      assert Visited(r, (x, y));
      ghost var before := m;
      m := PaintCell(m, r, dist, x, y);
      ColumnStep(m0, before, m, r, dist, x, y);
      y := y + GridSpacing;
    }
    forall c: Cell | Visited(r, c)
      ensures c.1 < y
    {
      assert c.1 as real <= MaxY(r) < y as real;
    }
  }

  /**
   * The body of `ripples.forEach` for one ripple: walk the columns of the
   * ripple's bounding box from left to right.
   */
  method PaintRipple(m0: map<Cell, real>, r: Ripple, dist: Distance) returns (m: map<Cell, real>)
    ensures forall c :: c in m <==> c in m0 || Lit(r, c, dist)
    ensures forall c :: Get(m, c) == Paint(r, c, dist, Get(m0, c))
  {
    m := m0;
    var minX := MinX(r);
    var maxX := MaxX(r);
    var x := GridFloor(minX);
    while x as real <= maxX
      invariant x % GridSpacing == 0 && GridFloor(MinX(r)) <= x
      invariant forall c :: c in m <==> c in m0 || (c.0 < x && Lit(r, c, dist))
      invariant forall c :: Get(m, c) == if c.0 < x then Paint(r, c, dist, Get(m0, c)) else Get(m0, c)
      decreases maxX.Floor - x
    {
      m := PaintColumn(m, r, dist, x);
      forall c: Cell | c.0 % GridSpacing == 0 && x < c.0
        ensures x + GridSpacing <= c.0
      {
        GridGap(x, c.0);
      }
      x := x + GridSpacing;
    }
  }

  /**
   * The intensity map of one frame: an entry for exactly the cells some
   * ripple lights, holding the clamped sum of the ripples painted in order.
   */
  method ComputeIntensity(ripples: seq<Ripple>, dist: Distance) returns (m: map<Cell, real>)
    ensures forall c :: c in m <==> exists i :: 0 <= i < |ripples| && Lit(ripples[i], c, dist)
    ensures forall c :: Get(m, c) == Accumulated(ripples, c, dist)
  {
    m := map[];
    for i := 0 to |ripples|
      invariant forall c :: c in m <==> exists j :: 0 <= j < i && Lit(ripples[j], c, dist)
      invariant forall c :: Get(m, c) == Accumulated(ripples[..i], c, dist)
    {
      m := PaintRipple(m, ripples[i], dist);
      assert ripples[..i + 1][..i] == ripples[..i];
    }
    assert ripples[..|ripples|] == ripples;
  }

  /** A ripple of non-negative alpha adds between 0 and ShockwaveFactor times its alpha to a lit cell. */
  lemma ContributionBounds(r: Ripple, c: Cell, dist: Distance)
    requires 0.0 <= r.alpha
    requires Lit(r, c, dist)
    ensures 0.0 <= Contribution(r, c, dist) <= ShockwaveFactor * r.alpha
  {
    var t := 1.0 - RingDistance(r, c, dist) / HalfThickness;
    assert 0.0 <= t <= 1.0;
    var a := r.alpha * ShockwaveFactor;
    assert 0.0 <= a;
    assert a * t <= a by {
      assert a - a * t == a * (1.0 - t);
      assert 0.0 <= a * (1.0 - t);
    }
    assert 0.0 <= a * t;
  }

  /** Painting a ripple of non-negative alpha never lowers a cell and never lifts it above 1. */
  lemma PaintBounds(r: Ripple, c: Cell, dist: Distance, v: real)
    requires 0.0 <= r.alpha
    requires 0.0 <= v <= 1.0
    ensures v <= Paint(r, c, dist, v) <= 1.0
  {
    if Lit(r, c, dist) {
      ContributionBounds(r, c, dist);
    }
  }

  /** Every value of the intensity map lies in [0, 1] when no ripple has a negative alpha. */
  lemma {:induction false} AccumulatedInUnit(rs: seq<Ripple>, c: Cell, dist: Distance)
    requires forall i :: 0 <= i < |rs| ==> 0.0 <= rs[i].alpha
    ensures 0.0 <= Accumulated(rs, c, dist) <= 1.0
  {
    if |rs| > 0 {
      AccumulatedInUnit(rs[..|rs| - 1], c, dist);
      PaintBounds(rs[|rs| - 1], c, dist, Accumulated(rs[..|rs| - 1], c, dist));
    }
  }

  /** A cell no ripple lights stays at 0. */
  lemma {:induction false} AccumulatedUnlit(rs: seq<Ripple>, c: Cell, dist: Distance)
    requires forall i :: 0 <= i < |rs| ==> !Lit(rs[i], c, dist)
    ensures Accumulated(rs, c, dist) == 0.0
  {
    if |rs| > 0 {
      AccumulatedUnlit(rs[..|rs| - 1], c, dist);
    }
  }

  /**
   * A lit cell is at least as bright as any one ripple that lights it would
   * make it alone, up to the clamp at 1.
   */
  lemma {:induction false} AccumulatedCoversEach(rs: seq<Ripple>, c: Cell, dist: Distance, j: nat)
    requires forall i :: 0 <= i < |rs| ==> 0.0 <= rs[i].alpha
    requires j < |rs| && Lit(rs[j], c, dist)
    ensures Min(1.0, Contribution(rs[j], c, dist)) <= Accumulated(rs, c, dist)
  {
    var prefix := rs[..|rs| - 1];
    var last := rs[|rs| - 1];
    AccumulatedInUnit(prefix, c, dist);
    if j == |rs| - 1 {
      ContributionBounds(last, c, dist);
    } else {
      AccumulatedCoversEach(prefix, c, dist, j);
      PaintBounds(last, c, dist, Accumulated(prefix, c, dist));
    }
  }

  /** The unclamped sum of the contributions of the ripples in rs that light cell c. */
  function LitSum(rs: seq<Ripple>, c: Cell, dist: Distance): real
  {
    if |rs| == 0 then 0.0
    else
      var last := rs[|rs| - 1];
      LitSum(rs[..|rs| - 1], c, dist) + (if Lit(last, c, dist) then Contribution(last, c, dist) else 0.0)
  }

  /**
   * Ripples add together: painting the ripples one by one, each write
   * clamped at 1, gives the sum of their contributions clamped once at 1.
   */
  lemma {:induction false} AccumulatedIsClampedSum(rs: seq<Ripple>, c: Cell, dist: Distance)
    requires forall i :: 0 <= i < |rs| ==> 0.0 <= rs[i].alpha
    ensures Accumulated(rs, c, dist) == Min(1.0, LitSum(rs, c, dist))
  {
    if |rs| > 0 {
      var last := rs[|rs| - 1];
      AccumulatedIsClampedSum(rs[..|rs| - 1], c, dist);
      if Lit(last, c, dist) {
        ContributionBounds(last, c, dist);
      }
    }
  }

  lemma SquareMonotone(p: real, q: real)
    requires 0.0 <= p < q
    ensures p * p < q * q
  {
    assert q * q - p * p == (q - p) * (q + p);
    assert (q - p) * (q + p) > 0.0 by {
      assert q - p > 0.0 && q + p > 0.0;
    }
  }

  /** A coordinate offset whose square is at most d * d, for d >= 0, is at most d. */
  lemma OffsetAtMostDistance(a: real, d: real)
    requires 0.0 <= d && a * a <= d * d
    ensures a <= d
  {
    if a > d {
      SquareMonotone(d, a);
    }
  }

  /**
   * The bounding box loses nothing: with the Euclidean distance, every grid
   * cell within half the shockwave thickness of the ring of a ripple of
   * non-negative radius is visited, and so lit.
   */
  lemma BoxCoversRing(r: Ripple, c: Cell, dist: Distance)
    requires 0.0 <= r.radius
    requires c.0 % GridSpacing == 0 && c.1 % GridSpacing == 0
    requires 0.0 <= dist(Point(r.x, r.y), CellPoint(c))
    requires dist(Point(r.x, r.y), CellPoint(c)) * dist(Point(r.x, r.y), CellPoint(c))
             == SquaredDistance(Point(r.x, r.y), CellPoint(c))
    requires RingDistance(r, c, dist) <= HalfThickness
    ensures Lit(r, c, dist)
  {
    var d := dist(Point(r.x, r.y), CellPoint(c));
    var dx := c.0 as real - r.x;
    var dy := c.1 as real - r.y;
    assert d <= r.radius + HalfThickness;
    assert dx * dx <= d * d && dy * dy <= d * d by {
      assert 0.0 <= dx * dx && 0.0 <= dy * dy;
    }
    OffsetAtMostDistance(dx, d);
    OffsetAtMostDistance(-dx, d);
    OffsetAtMostDistance(dy, d);
    OffsetAtMostDistance(-dy, d);
  }
}
