/**
 * The anchor field: a fixed number of points placed by a bounded rejection
 * sampler that tries to keep every new point at least MinDistance away from
 * the points already placed.
 *
 * Math.random() is replaced by an endless stream of draws read from an
 * offset; one draw is the pair of values in [0, 1) that the source scales by
 * the canvas width and height.
 */
module PointField {
  import opened Geometry

  const NumPoints: nat := 20
  const MaxAttempts: nat := 100
  const MinDistance: real := 100.0

  /** Two successive Math.random() values, for the x and the y coordinate. */
  type Draw = (real, real)

  /** The random source: draw number i of the run. */
  type Stream = nat -> Draw

  predicate UnitDraw(d: Draw)
  {
    0.0 <= d.0 < 1.0 && 0.0 <= d.1 < 1.0
  }

  /** Every draw is a pair of Math.random() values. */
  ghost predicate UnitStream(draws: Stream)
  {
    forall i :: UnitDraw(draws(i))
  }

  predicate InCanvas(p: Point, w: nat, h: nat)
  {
    0.0 <= p.x < w as real && 0.0 <= p.y < h as real
  }

  /** The candidate point a draw stands for on a w x h canvas. */
  function Candidate(d: Draw, w: nat, h: nat): Point
  {
    Point(d.0 * w as real, d.1 * h as real)
  }

  /** `distance(p, q) < minDistance`, stated on squared distances. */
  predicate TooClose(p: Point, q: Point)
  {
    SquaredDistance(p, q) < MinDistance * MinDistance
  }

  /** A candidate is valid when no existing point is too close to it. */
  predicate Fits(p: Point, existing: seq<Point>)
  {
    forall i {:trigger TooClose(p, existing[i])} :: 0 <= i < |existing| ==> !TooClose(p, existing[i])
  }

  /** The candidate of attempt number `k` of a sampler that reads the stream from `start`. */
  function Attempt(draws: Stream, start: nat, k: nat, w: nat, h: nat): Point
  {
    Candidate(draws(start + k), w, h)
  }

  /**
   * Attempt number (counted from `start` in the stream) of the first draw,
   * from attempt `from` on and among the first MaxAttempts, whose candidate
   * fits; MaxAttempts when none does. Attempt MaxAttempts is the unchecked
   * fallback.
   */
  function FirstFit(existing: seq<Point>, draws: Stream, start: nat, w: nat, h: nat, from: nat): (k: nat)
    requires from <= MaxAttempts
    decreases MaxAttempts - from
    ensures from <= k <= MaxAttempts
    ensures k < MaxAttempts ==> Fits(Attempt(draws, start, k, w, h), existing)
  {
    if from == MaxAttempts then MaxAttempts
    else if Fits(Attempt(draws, start, from, w, h), existing) then from
    else FirstFit(existing, draws, start, w, h, from + 1)
  }

  /** No attempt before the one FirstFit picks would have fitted. */
  lemma {:induction false} FirstFitIsFirst(existing: seq<Point>, draws: Stream, start: nat, w: nat, h: nat, from: nat)
    requires from <= MaxAttempts
    decreases MaxAttempts - from
    ensures forall j :: from <= j < FirstFit(existing, draws, start, w, h, from) ==>
              !Fits(Attempt(draws, start, j, w, h), existing)
  {
    if from < MaxAttempts && !Fits(Attempt(draws, start, from, w, h), existing) {
      FirstFitIsFirst(existing, draws, start, w, h, from + 1);
    }
  }

  /** The point generateValidPoint returns when it starts reading the stream at `start`. */
  function SamplePoint(existing: seq<Point>, draws: Stream, start: nat, w: nat, h: nat): Point
  {
    Attempt(draws, start, FirstFit(existing, draws, start, w, h, 0), w, h)
  }

  /**
   * generateValidPoint: rejection sampling with at most MaxAttempts tries,
   * then a fallback draw taken without any check. `consumed` is the number
   * of draws used.
   */
  method GenerateValidPoint(existing: seq<Point>, draws: Stream, start: nat, w: nat, h: nat)
    returns (p: Point, consumed: nat)
    ensures 1 <= consumed <= MaxAttempts + 1
    ensures p == Attempt(draws, start, consumed - 1, w, h)
    ensures consumed <= MaxAttempts ==> Fits(p, existing)
    ensures forall j :: 0 <= j < consumed - 1 ==> !Fits(Attempt(draws, start, j, w, h), existing)
    ensures consumed == FirstFit(existing, draws, start, w, h, 0) + 1
  {
    FirstFitIsFirst(existing, draws, start, w, h, 0);
    var attempts := 0;
    while attempts < MaxAttempts
      invariant 0 <= attempts <= MaxAttempts
      invariant FirstFit(existing, draws, start, w, h, 0) == FirstFit(existing, draws, start, w, h, attempts)
    {
      var newPoint := Attempt(draws, start, attempts, w, h);
      var valid := true;
      for i := 0 to |existing|
        invariant valid
        invariant forall j :: 0 <= j < i ==> !TooClose(newPoint, existing[j])
      {
        if TooClose(newPoint, existing[i]) {
          valid := false;
          break;
        }
      }
      if valid {
        return newPoint, attempts + 1;
      }
      attempts := attempts + 1;
    }
    return Attempt(draws, start, MaxAttempts, w, h), MaxAttempts + 1;
  }

  /*
   * generateRandomPoints fills the field one point at a time; point number i
   * is sampled against the i points before it, reading the stream from where
   * the previous point stopped. The four functions below describe that field
   * point by point, so that the first m points of any longer field are the
   * same m points by definition.
   */

  /** The number of draws the first n points of the field use. */
  function Consumed(draws: Stream, w: nat, h: nat, n: nat): (c: nat)
    decreases n, 0
    ensures n <= c
  {
    if n == 0 then 0
    else Consumed(draws, w, h, n - 1) + Pick(draws, w, h, n - 1) + 1
  }

  /** The attempt the sampler settles on for point number i. */
  function Pick(draws: Stream, w: nat, h: nat, i: nat): (k: nat)
    decreases i, 1
    ensures k <= MaxAttempts
  {
    FirstFit(Points(draws, w, h, i), draws, Consumed(draws, w, h, i), w, h, 0)
  }

  /** Point number i of the field. */
  function PointAt(draws: Stream, w: nat, h: nat, i: nat): Point
    decreases i, 2
  {
    Attempt(draws, Consumed(draws, w, h, i), Pick(draws, w, h, i), w, h)
  }

  /** The first n points of the field. */
  function Points(draws: Stream, w: nat, h: nat, n: nat): (ps: seq<Point>)
    decreases n, 0
    ensures |ps| == n
  {
    seq(n, i requires 0 <= i < n => PointAt(draws, w, h, i))
  }

  /** Whether point number i is the unchecked fallback. */
  predicate FellBack(draws: Stream, w: nat, h: nat, i: nat)
  {
    Pick(draws, w, h, i) == MaxAttempts
  }

  /** Point number i is what generateValidPoint returns against the i points before it. */
  lemma PointAtSamples(draws: Stream, w: nat, h: nat, i: nat)
    ensures PointAt(draws, w, h, i) == SamplePoint(Points(draws, w, h, i), draws, Consumed(draws, w, h, i), w, h)
    ensures Consumed(draws, w, h, i + 1) == Consumed(draws, w, h, i) + FirstFit(Points(draws, w, h, i), draws, Consumed(draws, w, h, i), w, h, 0) + 1
  {
  }

  /** Growing the field appends one point and leaves the earlier ones as they were. */
  lemma PointsStep(draws: Stream, w: nat, h: nat, n: nat)
    ensures Points(draws, w, h, n + 1) == Points(draws, w, h, n) + [PointAt(draws, w, h, n)]
  {
    assert forall i :: 0 <= i < n + 1 ==>
      Points(draws, w, h, n + 1)[i] == (Points(draws, w, h, n) + [PointAt(draws, w, h, n)])[i];
  }

  /**
   * The loop of generateRandomPoints: NumPoints calls of generateValidPoint,
   * each against the points pushed so far and reading the draws from where
   * the previous call stopped.
   */
  method GenerateField(draws: Stream, w: nat, h: nat) returns (points: seq<Point>)
    ensures points == Points(draws, w, h, NumPoints)
  {
    points := [];
    var cursor := 0;
    for i := 0 to NumPoints
      invariant points == Points(draws, w, h, i)
      invariant cursor == Consumed(draws, w, h, i)
    {
      var p, consumed := GenerateValidPoint(points, draws, cursor, w, h);
      PointAtSamples(draws, w, h, i);
      PointsStep(draws, w, h, i);
      points := points + [p];
      cursor := cursor + consumed;
    }
  }

  /** A point that is not a fallback keeps MinDistance from every point placed before it. */
  lemma FieldSpacing(draws: Stream, w: nat, h: nat, i: nat, j: nat)
    requires i < j
    requires !FellBack(draws, w, h, j)
    ensures !TooClose(PointAt(draws, w, h, j), PointAt(draws, w, h, i))
  {
    var before := Points(draws, w, h, j);
    assert Fits(PointAt(draws, w, h, j), before);
    assert before[i] == PointAt(draws, w, h, i);
    assert !TooClose(PointAt(draws, w, h, j), before[i]);
  }

  /** Without a fallback, all n points of the field are pairwise at least MinDistance apart. */
  lemma FieldSeparated(draws: Stream, w: nat, h: nat, n: nat)
    requires forall i :: 0 <= i < n ==> !FellBack(draws, w, h, i)
    ensures forall i, j :: 0 <= i < n && 0 <= j < n && i != j ==>
              !TooClose(Points(draws, w, h, n)[i], Points(draws, w, h, n)[j])
  {
    var pts := Points(draws, w, h, n);
    forall i, j | 0 <= i < n && 0 <= j < n && i != j
      ensures !TooClose(pts[i], pts[j])
    {
      if i < j {
        FieldSpacing(draws, w, h, i, j);
        SquaredDistanceSymmetric(pts[i], pts[j]);
      } else {
        FieldSpacing(draws, w, h, j, i);
      }
    }
  }

  /** A Math.random() value scaled by a positive length stays inside [0, length). */
  lemma ScaledUnit(u: real, len: nat)
    requires 0.0 <= u < 1.0 && 0 < len
    ensures 0.0 <= u * len as real < len as real
  {
    var l := len as real;
    assert 0.0 <= u * l by {
      if u > 0.0 {
        assert u * l > u * 0.0;
      }
    }
    assert l - u * l == (1.0 - u) * l;
    assert (1.0 - u) * l > 0.0;
  }

  /** A point whose coordinates are known to lie in [0, w) x [0, h) is on the canvas. */
  lemma InCanvasOf(p: Point, x: real, y: real, w: nat, h: nat)
    requires p == Point(x, y)
    requires 0.0 <= x < w as real && 0.0 <= y < h as real
    ensures InCanvas(p, w, h)
  {
  }

  /** A draw of two values in [0, 1) lands inside a non-empty canvas. */
  lemma CandidateInCanvas(d: Draw, w: nat, h: nat)
    requires UnitDraw(d) && 0 < w && 0 < h
    ensures InCanvas(Candidate(d, w, h), w, h)
  {
    var x := d.0 * w as real;
    var y := d.1 * h as real;
    ScaledUnit(d.0, w);
    ScaledUnit(d.1, h);
    InCanvasOf(Candidate(d, w, h), x, y, w, h);
  }

  /** With Math.random() values in [0, 1), every generated point lies on the canvas. */
  lemma FieldInCanvas(draws: Stream, w: nat, h: nat, i: nat)
    requires UnitStream(draws)
    requires 0 < w && 0 < h
    ensures InCanvas(PointAt(draws, w, h, i), w, h)
  {
    CandidateInCanvas(draws(Consumed(draws, w, h, i) + Pick(draws, w, h, i)), w, h);
  }

  /** On a canvas whose diagonal is below MinDistance, every candidate is too close to every point on it. */
  lemma CrowdedCanvas(d: Draw, q: Point, w: nat, h: nat)
    requires UnitDraw(d) && 0 < w && 0 < h
    requires (w * w + h * h) as real < MinDistance * MinDistance
    requires InCanvas(q, w, h)
    ensures TooClose(Candidate(d, w, h), q)
  {
    var c := Candidate(d, w, h);
    CandidateInCanvas(d, w, h);
    DistanceWithinRectangle(c, q, w as real, h as real);
    assert (w * w + h * h) as real == w as real * w as real + h as real * h as real;
  }

  /**
   * When the canvas diagonal is shorter than MinDistance, no candidate can
   * fit next to a point on the canvas, so the sampler always falls back.
   */
  lemma ForcedFallback(existing: seq<Point>, draws: Stream, start: nat, w: nat, h: nat)
    requires UnitStream(draws)
    requires 0 < w && 0 < h
    requires (w * w + h * h) as real < MinDistance * MinDistance
    requires |existing| > 0 && InCanvas(existing[0], w, h)
    ensures FirstFit(existing, draws, start, w, h, 0) == MaxAttempts
    ensures SamplePoint(existing, draws, start, w, h) == Attempt(draws, start, MaxAttempts, w, h)
  {
    forall j | 0 <= j < MaxAttempts
      ensures !Fits(Attempt(draws, start, j, w, h), existing)
    {
      CrowdedCanvas(draws(start + j), existing[0], w, h);
    }
  }

  /** Beyond its first point, a field on a canvas smaller than MinDistance consists of fallbacks. */
  lemma DenseFieldFallsBack(draws: Stream, w: nat, h: nat, i: nat)
    requires UnitStream(draws)
    requires 0 < w && 0 < h
    requires (w * w + h * h) as real < MinDistance * MinDistance
    requires 1 <= i
    ensures FellBack(draws, w, h, i)
  {
    var before := Points(draws, w, h, i);
    FieldInCanvas(draws, w, h, 0);
    assert before[0] == PointAt(draws, w, h, 0);
    ForcedFallback(before, draws, Consumed(draws, w, h, i), w, h);
  }

  /** The squared comparison agrees with comparing the true distance to MinDistance. */
  lemma TooCloseMatchesDistance(p: Point, q: Point, d: real)
    requires 0.0 <= d && d * d == SquaredDistance(p, q)
    ensures TooClose(p, q) <==> d < MinDistance
  {
    if d < MinDistance {
      assert d * d <= d * MinDistance;
      assert d * MinDistance < MinDistance * MinDistance;
      assert SquaredDistance(p, q) < MinDistance * MinDistance;
    } else {
      assert d * d >= d * MinDistance;
      assert d * MinDistance >= MinDistance * MinDistance;
    }
  }
}
