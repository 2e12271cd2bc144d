/** Piecewise linear curves (internal/inverter/voltvar.go). The points come from the server and nothing
    sorts them. */
module Curve {
  import opened Common

  datatype Point = Point(x: real, y: real)

  /** sort.Search on points[i].x > x, over [lo, hi). */
  function Search(points: seq<Point>, x: real, lo: nat, hi: nat): (i: nat)
    requires lo <= hi <= |points|
    ensures lo <= i <= hi
    ensures i > lo ==> points[i - 1].x <= x
    ensures i < hi ==> points[i].x > x
    decreases hi - lo
  {
    if lo == hi then lo
    else
      var mid := (lo + hi) / 2;
      if points[mid].x > x then Search(points, x, lo, mid) else Search(points, x, mid + 1, hi)
  }

  function Interpolate(p0: Point, p1: Point, x: real): real
    requires p0.x != p1.x
  {
    p0.y + (x - p0.x) / (p1.x - p0.x) * (p1.y - p0.y)
  }

  function Evaluate(points: seq<Point>, x: real): real {
    if points == [] then 0.0
    else if x <= points[0].x then points[0].y
    else if x >= points[|points| - 1].x then points[|points| - 1].y
    else
      var i := Search(points, x, 0, |points|);
      Interpolate(points[i - 1], points[i], x)
  }

  /** sort.Search, written out: binary search although nothing says the points are sorted. */
  method SearchPoints(points: seq<Point>, x: real) returns (i: nat)
    ensures i == Search(points, x, 0, |points|)
    ensures i <= |points| && (i > 0 ==> points[i - 1].x <= x) && (i < |points| ==> points[i].x > x)
  {
    var j;
    i, j := 0, |points|;
    ghost var found := Search(points, x, i, j);
    while i < j
      invariant 0 <= i <= j <= |points|
      invariant Search(points, x, i, j) == found
    {
      var h := (i + j) / 2;
      if points[h].x > x { j := h; } else { i := h + 1; }
    }
  }

  /** EvaluateCurve. Whatever the points, the search stops strictly inside the list on a segment that
      spans x, so the division is safe and the equal-x guard never fires. */
  method EvaluateCurve(points: seq<Point>, x: real) returns (y: real)
    ensures y == Evaluate(points, x)
    ensures points == [] ==> y == 0.0
    ensures points != [] && x <= points[0].x ==> y == points[0].y
    ensures points != [] && points[0].x < x && points[|points| - 1].x <= x ==> y == points[|points| - 1].y
  {
    if |points| == 0 { return 0.0; }
    if x <= points[0].x { return points[0].y; }
    if x >= points[|points| - 1].x { return points[|points| - 1].y; }
    var i := SearchPoints(points, x);
    var p0, p1 := points[i - 1], points[i];
    if p1.x == p0.x { return p0.y; }
    y := Interpolate(p0, p1, x);
  }

  lemma Between(p0: Point, p1: Point, x: real)
    requires p0.x <= x < p1.x
    ensures MinR(p0.y, p1.y) <= Interpolate(p0, p1, x) <= MaxR(p0.y, p1.y)
  {
    var t := (x - p0.x) / (p1.x - p0.x);
    Fraction(x - p0.x, p1.x - p0.x);
    Blend(t, p1.y - p0.y);
  }

  lemma Fraction(a: real, b: real)
    requires 0.0 <= a < b
    ensures 0.0 <= a / b < 1.0
  {
  }

  lemma Blend(t: real, d: real)
    requires 0.0 <= t <= 1.0
    ensures d >= 0.0 ==> 0.0 <= t * d <= d
    ensures d <= 0.0 ==> d <= t * d <= 0.0
  {
    if d >= 0.0 {
      Product(t, d);
      Product(1.0 - t, d);
    } else {
      Product(t, -d);
      Product(1.0 - t, -d);
    }
  }

  lemma Product(a: real, b: real)
    requires a >= 0.0 && b >= 0.0
    ensures a * b >= 0.0
  {
  }

  /** Strictly inside, the value is that of a segment that spans x. */
  lemma Inside(points: seq<Point>, x: real) returns (i: nat)
    requires points != [] && points[0].x < x < points[|points| - 1].x
    ensures 0 < i < |points| && points[i - 1].x <= x < points[i].x
    ensures Evaluate(points, x) == Interpolate(points[i - 1], points[i], x)
  {
    i := Search(points, x, 0, |points|);
  }

  /** Main result: for any non-empty list, sorted or not, the result lies between two of its Ys. */
  lemma BoundedByPoints(points: seq<Point>, x: real)
    requires points != []
    ensures exists p, q :: p in points && q in points && p.y <= Evaluate(points, x) <= q.y
  {
    if x <= points[0].x {
      assert points[0] in points;
    } else if x >= points[|points| - 1].x {
      assert points[|points| - 1] in points;
    } else {
      var i := Inside(points, x);
      Between(points[i - 1], points[i], x);
      assert points[i - 1] in points && points[i] in points;
    }
  }

  ghost predicate SortedByX(points: seq<Point>) {
    forall i, j :: 0 <= i < j < |points| ==> points[i].x <= points[j].x
  }

  /** Main result: on sorted points the curve is the piecewise linear interpolant: on whichever segment
      spans x, the value is that segment's. Where several points share the first X, it is the first's. */
  lemma IsInterpolant(points: seq<Point>, x: real, i: nat)
    requires SortedByX(points) && i + 1 < |points| && points[i].x <= x < points[i + 1].x
    ensures Evaluate(points, x) == Interpolate(points[i], points[i + 1], x) <==>
              points[0].x < x || points[i].y == points[0].y
  {
    if points[0].x < x {
      SpanningSegment(points, x, i);
    } else {
      assert i > 0 ==> points[0].x <= points[i].x;
      AtFirst(points[i], points[i + 1]);
    }
  }

  lemma AtFirst(p: Point, q: Point)
    requires p.x < q.x
    ensures Interpolate(p, q, p.x) == p.y
  {
    assert 0.0 / (q.x - p.x) == 0.0;
  }

  /** Once above the first X, the Xs never fall. */
  ghost predicate RisesAboveFirst(points: seq<Point>) {
    forall j :: 0 <= j < |points| - 1 && points[j].x > points[0].x ==> points[j].x <= points[j + 1].x
  }

  lemma {:induction false} StaysAbove(points: seq<Point>, x: real, j: nat, k: nat)
    requires RisesAboveFirst(points) && j <= k < |points| && points[0].x < x < points[j].x
    ensures x < points[k].x
    decreases k
  {
    if j < k { StaysAbove(points, x, j, k - 1); }
  }

  lemma SpanningSegment(points: seq<Point>, x: real, i: nat)
    requires RisesAboveFirst(points) && i + 1 < |points| && points[i].x <= x < points[i + 1].x
    requires points[0].x < x
    ensures Evaluate(points, x) == Interpolate(points[i], points[i + 1], x)
  {
    StaysAbove(points, x, i + 1, |points| - 1);
    var found := Search(points, x, 0, |points|);
    if found < i + 1 { StaysAbove(points, x, found, i); }
    if found > i + 1 { StaysAbove(points, x, i + 1, found - 1); }
  }

  /** The same Xs with other Ys. */
  function WithYs(points: seq<Point>, ys: seq<real>): seq<Point>
    requires |points| == |ys|
  {
    seq(|points|, i requires 0 <= i < |points| => Point(points[i].x, ys[i]))
  }

  /** Whatever the Ys, the value above the first X is that of every rising segment that spans it. */
  ghost predicate Interpolates(points: seq<Point>)
    requires points != []
  {
    forall ys: seq<real>, x: real, i: nat ::
      |ys| == |points| && points[0].x < x && i + 1 < |points| && points[i].x <= x < points[i + 1].x ==>
        Evaluate(WithYs(points, ys), x) == Interpolate(WithYs(points, ys)[i], WithYs(points, ys)[i + 1], x)
  }

  /** Main result: the curve interpolates exactly when no X above the first is followed by a smaller
      one. Sorting is enough, and anything that falls back from above the first X is too much. */
  lemma InterpolatesExactly(points: seq<Point>)
    requires points != []
    ensures Interpolates(points) <==> RisesAboveFirst(points)
  {
    if RisesAboveFirst(points) {
      forall ys: seq<real>, x: real, i: nat |
        |ys| == |points| && points[0].x < x && i + 1 < |points| && points[i].x <= x < points[i + 1].x
        ensures Evaluate(WithYs(points, ys), x) == Interpolate(WithYs(points, ys)[i], WithYs(points, ys)[i + 1], x)
      {
        SpanningSegment(WithYs(points, ys), x, i);
      }
    } else {
      var j :| 0 <= j < |points| - 1 && points[0].x < points[j].x && points[j + 1].x < points[j].x;
      FallsBack(points, j);
    }
  }

  /** An x just under a point the Xs fall back from is spanned before that point, and again after it or
      not at all: Ys that step up there tell the segments apart. */
  lemma FallsBack(points: seq<Point>, j: nat)
    requires j + 1 < |points| && points[0].x < points[j].x && points[j + 1].x < points[j].x
    ensures !Interpolates(points)
  {
    var x := (MaxR(points[0].x, points[j + 1].x) + points[j].x) / 2.0;
    var ys := seq(|points|, k => if k <= j then 0.0 else 1.0);
    var stepped := WithYs(points, ys);
    var i := RisesBetween(points, x, 0, j);
    Flat(stepped[i], stepped[i + 1], x);
    if Evaluate(stepped, x) != 0.0 {
      Misses(points, ys, x, i);
    } else {
      var i' := RisesBetween(points, x, j + 1, |points| - 1);
      Flat(stepped[i'], stepped[i' + 1], x);
      Misses(points, ys, x, i');
    }
  }

  lemma Misses(points: seq<Point>, ys: seq<real>, x: real, i: nat)
    requires |ys| == |points| && i + 1 < |points| && points[0].x < x && points[i].x <= x < points[i + 1].x
    requires Evaluate(WithYs(points, ys), x) != Interpolate(WithYs(points, ys)[i], WithYs(points, ys)[i + 1], x)
    ensures !Interpolates(points)
  {
  }

  lemma {:induction false} RisesBetween(points: seq<Point>, x: real, j: nat, k: nat) returns (i: nat)
    requires j < k < |points| && points[j].x <= x < points[k].x
    ensures j <= i < k && points[i].x <= x < points[i + 1].x
    decreases k
  {
    if points[k - 1].x <= x { i := k - 1; } else { i := RisesBetween(points, x, j, k - 1); }
  }

  lemma Flat(p: Point, q: Point, x: real)
    requires p.x != q.x && p.y == q.y
    ensures Interpolate(p, q, x) == p.y
  {
    assert (x - p.x) / (q.x - p.x) * 0.0 == 0.0;
  }

  ghost predicate RisingY(points: seq<Point>) {
    forall i, j :: 0 <= i < j < |points| ==> points[i].y <= points[j].y
  }

  /** Main result: sorted points with rising Ys give a rising curve. */
  lemma Monotone(points: seq<Point>, x: real, x': real)
    requires points != [] && SortedByX(points) && RisingY(points) && x <= x'
    ensures Evaluate(points, x) <= Evaluate(points, x')
  {
    if x <= points[0].x {
      AboveFirst(points, x');
    } else if x' >= points[|points| - 1].x {
      BelowLast(points, x);
    } else {
      var i := Inside(points, x);
      var i' := Inside(points, x');
      SegmentsRise(points, i, i', x, x');
    }
  }

  lemma SegmentsRise(points: seq<Point>, i: nat, i': nat, x: real, x': real)
    requires SortedByX(points) && RisingY(points) && x <= x'
    requires 0 < i < |points| && points[i - 1].x <= x < points[i].x
    requires 0 < i' < |points| && points[i' - 1].x <= x' < points[i'].x
    ensures Interpolate(points[i - 1], points[i], x) <= Interpolate(points[i' - 1], points[i'], x')
  {
    if i == i' {
      SegmentRises(points[i - 1], points[i], x, x');
    } else {
      assert i < i';
      Between(points[i - 1], points[i], x);
      Between(points[i' - 1], points[i'], x');
      assert points[i].y <= points[i' - 1].y;
    }
  }

  lemma AboveFirst(points: seq<Point>, x: real)
    requires points != [] && RisingY(points)
    ensures points[0].y <= Evaluate(points, x)
  {
    if points[0].x < x < points[|points| - 1].x {
      var i := Inside(points, x);
      Between(points[i - 1], points[i], x);
    }
  }

  lemma BelowLast(points: seq<Point>, x: real)
    requires points != [] && RisingY(points)
    ensures Evaluate(points, x) <= points[|points| - 1].y
  {
    if points[0].x < x < points[|points| - 1].x {
      var i := Inside(points, x);
      Between(points[i - 1], points[i], x);
    }
  }

  lemma SegmentRises(p0: Point, p1: Point, x: real, x': real)
    requires p0.x <= x <= x' < p1.x && p0.y <= p1.y
    ensures Interpolate(p0, p1, x) <= Interpolate(p0, p1, x')
  {
    var w := p1.x - p0.x;
    var t, t' := (x - p0.x) / w, (x' - p0.x) / w;
    Fraction(x' - x, w);
    assert t' - t == (x' - x) / w;
    assert (t' - t) * (p1.y - p0.y) >= 0.0;
    assert (t' - t) * (p1.y - p0.y) == t' * (p1.y - p0.y) - t * (p1.y - p0.y);
  }
}
