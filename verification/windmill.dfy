/**
 * One step of the windmill process over a finite set of integer points:
 * plane generation, collinearity, pivot choice, the vertical line through
 * the pivot, its directional segments, the next point the line strikes and
 * the counts of points on either side (lib/windmill.ts).
 */
module Windmill {
  import opened JsArrays

  /** A point `[x, y]`; equality is equality of both coordinates. */
  datatype Point = Point(x: int, y: int)

  /** A line `[line[0], line[1]]`; as built from a pivot, `near` is the low end and `far` the high end. */
  datatype Line = Line(near: Point, far: Point)

  /** A segment from the pivot to one tip of the line. */
  datatype Segment = Segment(pivot: Point, tip: Point)

  /** The front and back segments of a line seen from its pivot. */
  datatype Segments = Segments(front: Segment, back: Segment)

  // ---------------------------------------------------------------------
  // Collinearity (lib/windmill.ts:1-5)
  // ---------------------------------------------------------------------

  /** The three points lie on one line: (y2 - y1)(x3 - x2) = (y3 - y2)(x2 - x1). */
  predicate IsCollinear(p1: Point, p2: Point, p3: Point)
  {
    (p2.y - p1.y) * (p3.x - p2.x) == (p3.y - p2.y) * (p2.x - p1.x)
  }

  /** The orientation determinant of `a` and `b` seen from `o`, the textbook collinearity test. */
  function Cross(o: Point, a: Point, b: Point): int
  {
    (a.x - o.x) * (b.y - o.y) - (a.y - o.y) * (b.x - o.x)
  }

  /** The source's identity agrees with the orientation determinant. */
  lemma CollinearIffCrossZero(p1: Point, p2: Point, p3: Point)
    ensures IsCollinear(p1, p2, p3) <==> Cross(p1, p2, p3) == 0
  {
    var a, b, c, d := p2.x - p1.x, p2.y - p1.y, p3.x - p2.x, p3.y - p2.y;
    assert p3.x - p1.x == a + c && p3.y - p1.y == b + d;
    assert Cross(p1, p2, p3) == a * (b + d) - b * (a + c);
    assert a * (b + d) - b * (a + c) == a * d - b * c;
  }

  /** Any two coinciding points make the triple collinear. */
  lemma CollinearWithRepeatedPoint(p: Point, q: Point)
    ensures IsCollinear(p, p, q) && IsCollinear(p, q, q) && IsCollinear(p, q, p)
  {
    assert (q.y - p.y) * (p.x - q.x) == (p.y - q.y) * (q.x - p.x);
  }

  /** Collinearity does not depend on the order of the three points. */
  lemma CollinearSymmetric(p1: Point, p2: Point, p3: Point)
    ensures IsCollinear(p1, p2, p3) <==> IsCollinear(p3, p2, p1)
    ensures IsCollinear(p1, p2, p3) <==> IsCollinear(p2, p3, p1)
    ensures IsCollinear(p1, p2, p3) <==> IsCollinear(p2, p1, p3)
  {
    CollinearIffCrossZero(p1, p2, p3);
    CollinearIffCrossZero(p3, p2, p1);
    CollinearIffCrossZero(p2, p3, p1);
    CollinearIffCrossZero(p2, p1, p3);
    var a, b, c, d := p2.x - p1.x, p2.y - p1.y, p3.x - p1.x, p3.y - p1.y;
    assert Cross(p1, p2, p3) == a * d - b * c;
    assert Cross(p2, p1, p3) == (-a) * (d - b) - (-b) * (c - a);
    assert (-a) * (d - b) - (-b) * (c - a) == -(a * d - b * c);
    assert Cross(p2, p3, p1) == (c - a) * (-b) - (d - b) * (-a);
    assert (c - a) * (-b) - (d - b) * (-a) == a * d - b * c;
    assert Cross(p3, p2, p1) == (a - c) * (-d) - (b - d) * (-c);
    assert (a - c) * (-d) - (b - d) * (-c) == -(a * d - b * c);
  }

  /** The two cases of lib/windmill.test.ts:24-34. */
  lemma CollinearExamples()
    ensures IsCollinear(Point(1, 2), Point(3, 4), Point(5, 6))
    ensures !IsCollinear(Point(1, 2), Point(3, 4), Point(5, 7))
  {
  }

  // ---------------------------------------------------------------------
  // Random draws (Math.random, lib/windmill.ts:13-15, :19, :32)
  // ---------------------------------------------------------------------

  /** A value `Math.random()` can return. */
  predicate IsUnitDraw(u: real)
  {
    0.0 <= u < 1.0
  }

  /** `Math.floor(u * n)` for a draw `u`: an index below `n`. */
  function ScaledFloor(u: real, n: nat): (r: int)
    requires IsUnitDraw(u)
    ensures 0 <= r
    ensures n > 0 ==> r < n
    ensures n == 0 ==> r == 0
  {
    assert 0.0 <= u * n as real <= n as real;
    assert n > 0 ==> u * n as real < n as real;
    (u * n as real).Floor
  }

  /** Every index below `n` is reached by some draw, namely `i / n`. */
  lemma ScaledFloorReaches(i: nat, n: nat)
    requires i < n
    ensures IsUnitDraw(i as real / n as real)
    ensures ScaledFloor(i as real / n as real, n) == i
  {
    var u := i as real / n as real;
    assert u * n as real == i as real;
  }

  /** `getRandomNumber(min, max)`: `Math.floor(u * (max - min + 1)) + min`. */
  function RandomNumber(u: real, min: int, max: int): (r: int)
    requires IsUnitDraw(u) && min <= max
    ensures min <= r <= max
  {
    ScaledFloor(u, max - min + 1) + min
  }

  /** Every integer of `[min, max]` is a possible result of `getRandomNumber`. */
  lemma RandomNumberReaches(min: int, max: int, v: int)
    requires min <= v <= max
    ensures IsUnitDraw((v - min) as real / (max - min + 1) as real)
    ensures RandomNumber((v - min) as real / (max - min + 1) as real, min, max) == v
  {
    ScaledFloorReaches(v - min, max - min + 1);
  }

  // ---------------------------------------------------------------------
  // Plane generation (lib/windmill.ts:7-28)
  // ---------------------------------------------------------------------

  /** The three `Math.random()` results drawn for one cell: inclusion, then x and y offsets. */
  datatype CellDraw = CellDraw(keep: real, dx: real, dy: real)

  predicate IsCellDraw(d: CellDraw)
  {
    IsUnitDraw(d.keep) && IsUnitDraw(d.dx) && IsUnitDraw(d.dy)
  }

  /** The draws for a square grid of cells, `draws[x][y]` for cell `(x, y)`. */
  predicate IsGridDraws(draws: seq<seq<CellDraw>>)
  {
    forall x :: 0 <= x < |draws| ==>
      |draws[x]| == |draws| && forall y :: 0 <= y < |draws[x]| ==> IsCellDraw(draws[x][y])
  }

  /** Cell `(x, y)` is kept when its draw is below `density` (line 19). */
  predicate IsKept(density: real, d: CellDraw)
  {
    d.keep < density
  }

  /** The point a kept cell `(x, y)` adds: one of its four corners (lines 20-22). */
  function CellPoint(x: int, y: int, d: CellDraw): (p: Point)
    requires IsCellDraw(d)
    ensures x <= p.x <= x + 1 && y <= p.y <= y + 1
  {
    Point(RandomNumber(d.dx, x, x + 1), RandomNumber(d.dy, y, y + 1))
  }

  /** Each of the four corners of a cell is a possible result. */
  lemma CellPointReachesCorners(x: int, y: int, cx: int, cy: int)
    requires x <= cx <= x + 1 && y <= cy <= y + 1
    ensures exists d :: IsCellDraw(d) && CellPoint(x, y, d) == Point(cx, cy)
  {
    RandomNumberReaches(x, x + 1, cx);
    RandomNumberReaches(y, y + 1, cy);
    var d := CellDraw(0.0, (cx - x) as real / 2.0, (cy - y) as real / 2.0);
    assert IsCellDraw(d) && CellPoint(x, y, d) == Point(cx, cy);
  }

  /** The points added by cells `(x, 0) .. (x, n - 1)`, in loop order. */
  function ColumnPoints(density: real, draws: seq<seq<CellDraw>>, x: nat, n: nat): seq<Point>
    requires IsGridDraws(draws) && x < |draws| && n <= |draws|
  {
    if n == 0 then []
    else
      var d := draws[x][n - 1];
      ColumnPoints(density, draws, x, n - 1) + (if IsKept(density, d) then [CellPoint(x, n - 1, d)] else [])
  }

  /** The points added by columns `0 .. m - 1`, in loop order. */
  function GridPoints(density: real, draws: seq<seq<CellDraw>>, m: nat): seq<Point>
    requires IsGridDraws(draws) && m <= |draws|
  {
    if m == 0 then []
    else GridPoints(density, draws, m - 1) + ColumnPoints(density, draws, m - 1, |draws|)
  }

  /** The grid side the generator's loops run over: `size`, or none when `size <= 0`. */
  function GridSide(size: int): nat
  {
    if size > 0 then size else 0
  }

  /** `generateRandomPlane(size, density)` with its random draws given as `draws`. */
  method GenerateRandomPlane(size: int, density: real, draws: seq<seq<CellDraw>>) returns (plane: seq<Point>)
    requires |draws| == GridSide(size) && IsGridDraws(draws)
    ensures plane == GridPoints(density, draws, |draws|)
  {
    plane := [];
    var x := 0;
    while x < size
      invariant 0 <= x <= |draws|
      invariant plane == GridPoints(density, draws, x)
    {
      var y := 0;
      while y < size
        invariant 0 <= y <= |draws|
        invariant plane == GridPoints(density, draws, x) + ColumnPoints(density, draws, x, y)
      {
        var d := draws[x][y];
        if d.keep < density {
          var randomX := RandomNumber(d.dx, x, x + 1);
          var randomY := RandomNumber(d.dy, y, y + 1);
          plane := plane + [Point(randomX, randomY)];
        }
        y := y + 1;
      }
      x := x + 1;
    }
  }

  lemma {:induction false} ColumnPointsBounds(density: real, draws: seq<seq<CellDraw>>, x: nat, n: nat)
    requires IsGridDraws(draws) && x < |draws| && n <= |draws|
    ensures |ColumnPoints(density, draws, x, n)| <= n
    ensures forall p :: p in ColumnPoints(density, draws, x, n) ==> x <= p.x <= x + 1 && 0 <= p.y <= n
    ensures density <= 0.0 ==> ColumnPoints(density, draws, x, n) == []
    ensures density >= 1.0 ==> |ColumnPoints(density, draws, x, n)| == n
  {
    if n > 0 {
      ColumnPointsBounds(density, draws, x, n - 1);
    }
  }

  lemma {:induction false} GridPointsBounds(density: real, draws: seq<seq<CellDraw>>, m: nat)
    requires IsGridDraws(draws) && m <= |draws|
    ensures |GridPoints(density, draws, m)| <= m * |draws|
    ensures forall p :: p in GridPoints(density, draws, m) ==> 0 <= p.x <= m && 0 <= p.y <= |draws|
    ensures density <= 0.0 ==> GridPoints(density, draws, m) == []
    ensures density >= 1.0 ==> |GridPoints(density, draws, m)| == m * |draws|
  {
    if m > 0 {
      GridPointsBounds(density, draws, m - 1);
      ColumnPointsBounds(density, draws, m - 1, |draws|);
      assert (m - 1) * |draws| + |draws| == m * |draws|;
    }
  }

  /**
   * A generated plane has at most `size * size` points, every coordinate in
   * `[0, size]`; it is empty when `density <= 0` and has exactly `size * size`
   * points when `density >= 1`.
   */
  lemma RandomPlaneBounds(size: int, density: real, draws: seq<seq<CellDraw>>)
    requires |draws| == GridSide(size) && IsGridDraws(draws)
    ensures |GridPoints(density, draws, |draws|)| <= size * size
    ensures forall p :: p in GridPoints(density, draws, |draws|) ==> 0 <= p.x <= size && 0 <= p.y <= size
    ensures density <= 0.0 ==> GridPoints(density, draws, |draws|) == []
    ensures density >= 1.0 && size > 0 ==> |GridPoints(density, draws, |draws|)| == size * size
  {
    GridPointsBounds(density, draws, |draws|);
  }

  // ---------------------------------------------------------------------
  // Pivot choice (lib/windmill.ts:30-34)
  // ---------------------------------------------------------------------

  /** `getPivotPoint(plane)` with draw `u`: `points[floor(u * len)]`, `undefined` on an empty plane. */
  function PivotPoint(plane: seq<Point>, u: real): (r: Option<Point>)
    requires IsUnitDraw(u)
    ensures r.Some? <==> plane != []
    ensures r.Some? ==> r.value in plane
  {
    if plane == [] then None else Some(plane[ScaledFloor(u, |plane|)])
  }

  /** Every point of the plane can be chosen as the pivot. */
  lemma PivotPointReachesEveryPoint(plane: seq<Point>, i: nat)
    requires i < |plane|
    ensures IsUnitDraw(i as real / |plane| as real)
    ensures PivotPoint(plane, i as real / |plane| as real) == Some(plane[i])
  {
    ScaledFloorReaches(i, |plane|);
  }

  // ---------------------------------------------------------------------
  // Line through the pivot (lib/windmill.ts:36-56)
  // ---------------------------------------------------------------------

  /** `points.reduce((acc, [x, y]) => (y < acc ? y : acc), init)`. */
  function LowestY(points: seq<Point>, init: int): (lo: int)
    ensures lo <= init
    ensures forall p :: p in points ==> lo <= p.y
    ensures lo == init || exists p :: p in points && p.y == lo
  {
    if points == [] then init
    else
      var acc := LowestY(points[..|points| - 1], init);
      var p := points[|points| - 1];
      assert forall q :: q in points[..|points| - 1] ==> q in points;
      if p.y < acc then p.y else acc
  }

  /** `points.reduce((acc, [x, y]) => (y > acc ? y : acc), init)`. */
  function HighestY(points: seq<Point>, init: int): (hi: int)
    ensures init <= hi
    ensures forall p :: p in points ==> p.y <= hi
    ensures hi == init || exists p :: p in points && p.y == hi
  {
    if points == [] then init
    else
      var acc := HighestY(points[..|points| - 1], init);
      var p := points[|points| - 1];
      assert forall q :: q in points[..|points| - 1] ==> q in points;
      if p.y > acc then p.y else acc
  }

  /**
   * `getLinePointsFromPivot(plane, pivot)`: the vertical line through the
   * pivot from the lowest to the highest y of the plane. On an empty plane
   * `points[0]![1]` throws.
   */
  function LinePointsFromPivot(plane: seq<Point>, pivot: Point): (r: Option<Line>)
    ensures r.Some? <==> plane != []
    ensures r.Some? ==> r.value.near.x == pivot.x && r.value.far.x == pivot.x
    ensures r.Some? ==> forall p :: p in plane ==> r.value.near.y <= p.y <= r.value.far.y
    ensures r.Some? ==> exists p :: p in plane && p.y == r.value.near.y
    ensures r.Some? ==> exists p :: p in plane && p.y == r.value.far.y
    ensures r.Some? ==> r.value.near.y <= r.value.far.y
  {
    if plane == [] then None
    else
      var lowestY := LowestY(plane, plane[0].y);
      var highestY := HighestY(plane, plane[0].y);
      Some(Line(Point(pivot.x, lowestY), Point(pivot.x, highestY)))
  }

  /** The case of lib/windmill.test.ts:59-72. */
  lemma LinePointsExample()
    ensures LinePointsFromPivot([Point(1, 2), Point(3, 4), Point(5, 6)], Point(3, 4))
         == Some(Line(Point(3, 2), Point(3, 6)))
  {
    var plane := [Point(1, 2), Point(3, 4), Point(5, 6)];
    var r := LinePointsFromPivot(plane, Point(3, 4));
    assert r.value.near.y <= 2 && r.value.far.y >= 6;
  }

  // ---------------------------------------------------------------------
  // Directional segments (lib/windmill.ts:58-72)
  // ---------------------------------------------------------------------

  /** `getDirectionalLineSegments(pivot, line)`: front to `line[1]`, back to `line[0]`. */
  function DirectionalLineSegments(pivot: Point, line: Line): (s: Segments)
    ensures s.front.pivot == pivot && s.back.pivot == pivot
    ensures Line(s.back.tip, s.front.tip) == line
  {
    Segments(Segment(pivot, line.far), Segment(pivot, line.near))
  }

  /** On a line built from the pivot, both segments are vertical and the front one points up. */
  lemma SegmentsOfBuiltLine(plane: seq<Point>, pivot: Point)
    requires plane != []
    ensures var s := DirectionalLineSegments(pivot, LinePointsFromPivot(plane, pivot).value);
      s.front.tip.x == pivot.x && s.back.tip.x == pivot.x &&
      s.back.tip.y <= s.front.tip.y &&
      forall p :: p in plane ==> s.back.tip.y <= p.y <= s.front.tip.y
  {
  }

  // ---------------------------------------------------------------------
  // Closest number (lib/windmill.ts:74-78)
  // ---------------------------------------------------------------------

  function Abs(n: int): nat
  {
    if n < 0 then -n else n
  }

  /** `arr.reduce((prev, curr) => |curr - target| < |prev - target| ? curr : prev)` on a non-empty array. */
  function ReduceClosest(arr: seq<int>, target: int): (r: int)
    requires arr != []
    ensures r in arr
    ensures forall v :: v in arr ==> Abs(r - target) <= Abs(v - target)
  {
    if |arr| == 1 then arr[0]
    else
      var prev := ReduceClosest(arr[..|arr| - 1], target);
      var curr := arr[|arr| - 1];
      assert arr == arr[..|arr| - 1] + [curr];
      if Abs(curr - target) < Abs(prev - target) then curr else prev
  }

  /** `getClosestNumber(arr, target)`; `reduce` without an initial value throws on an empty array. */
  function ClosestNumber(arr: seq<int>, target: int): (r: Option<int>)
    ensures r.Some? <==> arr != []
    ensures r.Some? ==> r.value in arr
    ensures r.Some? ==> forall v :: v in arr ==> Abs(r.value - target) <= Abs(v - target)
  {
    if arr == [] then None else Some(ReduceClosest(arr, target))
  }

  /** Ties go to the earliest element: everything before the result's first occurrence is strictly farther. */
  lemma {:induction false} ReduceClosestIsEarliest(arr: seq<int>, target: int) returns (i: nat)
    requires arr != []
    ensures i < |arr| && arr[i] == ReduceClosest(arr, target)
    ensures forall j :: 0 <= j < i ==> Abs(arr[j] - target) > Abs(arr[i] - target)
  {
    if |arr| == 1 {
      i := 0;
    } else {
      var front, curr := arr[..|arr| - 1], arr[|arr| - 1];
      var prev := ReduceClosest(front, target);
      assert forall j :: 0 <= j < |front| ==> arr[j] == front[j];
      if Abs(curr - target) < Abs(prev - target) {
        i := |arr| - 1;
        forall j | 0 <= j < |front| ensures Abs(front[j] - target) >= Abs(prev - target) {
          assert front[j] in front;
        }
      } else {
        i := ReduceClosestIsEarliest(front, target);
      }
    }
  }

  /** The closest number to a target, ties going to the earliest. */
  lemma ClosestNumberIsEarliestNearest(arr: seq<int>, target: int)
    requires arr != []
    ensures var r := ClosestNumber(arr, target).value;
      r in arr &&
      (forall v :: v in arr ==> Abs(r - target) <= Abs(v - target)) &&
      (forall j :: 0 <= j < FindIndex(arr, r) ==> Abs(arr[j] - target) > Abs(r - target))
  {
    var i := ReduceClosestIsEarliest(arr, target);
  }

  // ---------------------------------------------------------------------
  // Ordering candidates by distance (lib/windmill.ts:92-101)
  // ---------------------------------------------------------------------

  /** The square of the Euclidean distance between two points. */
  function DistSq(p: Point, q: Point): (d: int)
    ensures d >= 0
    ensures d == 0 <==> p == q
  {
    var dx, dy := p.x - q.x, p.y - q.y;
    assert dx * dx >= 0 && dy * dy >= 0;
    assert dx != 0 ==> dx * dx > 0;
    assert dy != 0 ==> dy * dy > 0;
    dx * dx + dy * dy
  }

  /**
   * The comparator as written at lib/windmill.ts:96-100: by precedence it is
   * `sqrt(dx1^2) + dy1^2 - sqrt(dx2^2) + dy2^2`, and `sqrt(n^2)` is `|n|` on integers.
   */
  function SourceComparator(pivot: Point, a: Point, b: Point): int
  {
    Abs(a.x - pivot.x) + (a.y - pivot.y) * (a.y - pivot.y)
      - Abs(b.x - pivot.x) + (b.y - pivot.y) * (b.y - pivot.y)
  }

  /**
   * The source's comparator is not a consistent order: it ranks a point after
   * itself whenever its y differs from the pivot's, and on the plane of
   * lib/windmill.test.ts:77-88 (pivot (3, 4)) it ranks (1, 2) after (2, 6)
   * and also (2, 6) after (1, 2), although (2, 6) is the nearer one.
   */
  lemma SourceComparatorInconsistent(pivot: Point, a: Point)
    ensures SourceComparator(pivot, a, a) == 2 * (a.y - pivot.y) * (a.y - pivot.y)
    ensures a.y != pivot.y ==> SourceComparator(pivot, a, a) > 0
    ensures SourceComparator(Point(3, 4), Point(1, 2), Point(2, 6)) == 9
    ensures SourceComparator(Point(3, 4), Point(2, 6), Point(1, 2)) == 7
    ensures DistSq(Point(2, 6), Point(3, 4)) < DistSq(Point(1, 2), Point(3, 4))
  {
    var dy := a.y - pivot.y;
    assert dy != 0 ==> dy * dy > 0;
  }

  /** The comparator the code evidently intends: the difference of squared distances to the pivot. */
  function DistanceComparator(pivot: Point, a: Point, b: Point): (c: int)
    ensures c == 0 <==> DistSq(a, pivot) == DistSq(b, pivot)
    ensures c < 0 <==> DistSq(a, pivot) < DistSq(b, pivot)
  {
    DistSq(a, pivot) - DistSq(b, pivot)
  }

  /** Unlike the source's comparator, the intended one is antisymmetric, zero on equal points and transitive. */
  lemma DistanceComparatorConsistent(pivot: Point, a: Point, b: Point, c: Point)
    ensures DistanceComparator(pivot, a, a) == 0
    ensures DistanceComparator(pivot, a, b) == -DistanceComparator(pivot, b, a)
    ensures DistanceComparator(pivot, a, b) <= 0 && DistanceComparator(pivot, b, c) <= 0
      ==> DistanceComparator(pivot, a, c) <= 0
  {
  }

  /** Points in non-decreasing distance from the pivot. */
  ghost predicate SortedByDistance(s: seq<Point>, pivot: Point)
  {
    forall i, j :: 0 <= i < j < |s| ==> DistSq(s[i], pivot) <= DistSq(s[j], pivot)
  }

  /** Inserts `p` after every point of `sorted` that is not farther than `p` (a stable insertion). */
  function InsertByDistance(sorted: seq<Point>, p: Point, pivot: Point): (r: seq<Point>)
    ensures |r| == |sorted| + 1
  {
    if sorted == [] then [p]
    else
      var last := sorted[|sorted| - 1];
      if DistanceComparator(pivot, last, p) > 0
      then InsertByDistance(sorted[..|sorted| - 1], p, pivot) + [last]
      else sorted + [p]
  }

  /** Stable insertion sort by distance to the pivot: the order the in-place sort produces. */
  function SortByDistance(s: seq<Point>, pivot: Point): (r: seq<Point>)
    ensures |r| == |s|
  {
    if s == [] then []
    else InsertByDistance(SortByDistance(s[..|s| - 1], pivot), s[|s| - 1], pivot)
  }

  /** Appending a point no nearer than every point of a sorted sequence keeps it sorted. */
  lemma SortedAppend(t: seq<Point>, x: Point, pivot: Point)
    requires SortedByDistance(t, pivot)
    requires forall i :: 0 <= i < |t| ==> DistSq(t[i], pivot) <= DistSq(x, pivot)
    ensures SortedByDistance(t + [x], pivot)
  {
  }

  lemma {:induction false} InsertByDistanceSorted(sorted: seq<Point>, p: Point, pivot: Point)
    requires SortedByDistance(sorted, pivot)
    ensures SortedByDistance(InsertByDistance(sorted, p, pivot), pivot)
    ensures multiset(InsertByDistance(sorted, p, pivot)) == multiset(sorted) + multiset{p}
  {
    if sorted != [] {
      var init, last := sorted[..|sorted| - 1], sorted[|sorted| - 1];
      assert sorted == init + [last];
      assert forall i :: 0 <= i < |init| ==> DistSq(init[i], pivot) <= DistSq(last, pivot);
      if DistSq(last, pivot) > DistSq(p, pivot) {
        InsertByDistanceSorted(init, p, pivot);
        var t := InsertByDistance(init, p, pivot);
        forall i | 0 <= i < |t|
          ensures DistSq(t[i], pivot) <= DistSq(last, pivot)
        {
          assert t[i] in multiset(t);
          if t[i] != p {
            assert t[i] in multiset(init);
          }
        }
        SortedAppend(t, last, pivot);
      } else {
        SortedAppend(sorted, p, pivot);
      }
    }
  }

  /** The sorted order is non-decreasing in distance and a permutation of its input. */
  lemma {:induction false} SortByDistanceSorted(s: seq<Point>, pivot: Point)
    ensures SortedByDistance(SortByDistance(s, pivot), pivot)
    ensures multiset(SortByDistance(s, pivot)) == multiset(s)
  {
    if s != [] {
      SortByDistanceSorted(s[..|s| - 1], pivot);
      InsertByDistanceSorted(SortByDistance(s[..|s| - 1], pivot), s[|s| - 1], pivot);
      assert s == s[..|s| - 1] + [s[|s| - 1]];
    }
  }

  /** The test "at squared distance `d` from the pivot". */
  function AtDistance(pivot: Point, d: int): Point -> bool
  {
    q => DistSq(q, pivot) == d
  }

  /** Inserting `p` keeps the points at each distance in their order, `p` after those already there. */
  lemma {:induction false} InsertByDistanceStable(sorted: seq<Point>, p: Point, pivot: Point, d: int)
    ensures Filter(InsertByDistance(sorted, p, pivot), AtDistance(pivot, d))
         == Filter(sorted, AtDistance(pivot, d)) + Filter([p], AtDistance(pivot, d))
  {
    var at := AtDistance(pivot, d);
    if sorted == [] {
      assert [p] == [] + [p];
    } else {
      var init, last := sorted[..|sorted| - 1], sorted[|sorted| - 1];
      assert sorted == init + [last];
      FilterAppend(init, [last], at);
      if DistanceComparator(pivot, last, p) > 0 {
        var t := InsertByDistance(init, p, pivot);
        InsertByDistanceStable(init, p, pivot, d);
        FilterAppend(t, [last], at);
        FilterCons(p, [], at);
        FilterCons(last, [], at);
        // `p` and `last` are at different distances, so at most one of them is kept.
        assert Filter([p], at) == [] || Filter([last], at) == [];
      } else {
        FilterAppend(sorted, [p], at);
      }
    }
  }

  /**
   * The sort is stable: the points at any one distance from the pivot keep
   * their input order.
   */
  lemma {:induction false} SortByDistanceStable(s: seq<Point>, pivot: Point, d: int)
    ensures Filter(SortByDistance(s, pivot), AtDistance(pivot, d)) == Filter(s, AtDistance(pivot, d))
  {
    if s != [] {
      var init, last := s[..|s| - 1], s[|s| - 1];
      assert s == init + [last];
      SortByDistanceStable(init, pivot, d);
      InsertByDistanceStable(SortByDistance(init, pivot), last, pivot, d);
      FilterAppend(init, [last], AtDistance(pivot, d));
    }
  }

  /** Every point of the sorted order is a point of the input. */
  lemma SortByDistanceMembers(s: seq<Point>, pivot: Point)
    ensures forall k :: 0 <= k < |SortByDistance(s, pivot)| ==> SortByDistance(s, pivot)[k] in s
  {
    SortByDistanceSorted(s, pivot);
    var sorted := SortByDistance(s, pivot);
    forall k | 0 <= k < |sorted| ensures sorted[k] in s {
      assert sorted[k] in multiset(sorted);
    }
  }

  /**
   * Inserting `key` lands it at `j` when every point from `j` on is farther
   * than `key` and the point before `j`, if any, is not.
   */
  lemma {:induction false} InsertByDistanceAt(sorted: seq<Point>, key: Point, pivot: Point, j: nat)
    requires j <= |sorted|
    requires forall k :: j <= k < |sorted| ==> DistanceComparator(pivot, sorted[k], key) > 0
    requires j == 0 || DistanceComparator(pivot, sorted[j - 1], key) <= 0
    ensures InsertByDistance(sorted, key, pivot) == sorted[..j] + [key] + sorted[j..]
  {
    if j == |sorted| {
      assert sorted[..j] == sorted && sorted[j..] == [];
    } else {
      var init := sorted[..|sorted| - 1];
      InsertByDistanceAt(init, key, pivot, j);
      assert init[..j] == sorted[..j];
      assert sorted[j..] == init[j..] + [sorted[|sorted| - 1]];
    }
  }

  /** A sequence holding `key` at `j`, `sorted` elsewhere in order, is `key` inserted into `sorted` at `j`. */
  lemma InsertedAt(s: seq<Point>, sorted: seq<Point>, key: Point, j: nat)
    requires |s| == |sorted| + 1 && j <= |sorted| && s[j] == key
    requires forall k :: 0 <= k < j ==> s[k] == sorted[k]
    requires forall k :: j < k < |s| ==> s[k] == sorted[k - 1]
    ensures s == sorted[..j] + [key] + sorted[j..]
  {
    var inserted := sorted[..j] + [key] + sorted[j..];
    forall k | 0 <= k < |s|
      ensures s[k] == inserted[k]
    {
      if k < j {
        assert inserted[k] == sorted[k];
      } else if k > j {
        assert inserted[k] == sorted[k - 1];
      }
    }
  }

  /** One pass of the in-place sort: shifts `a[i]` left past the farther points before it. */
  method InsertInPlace(a: array<Point>, i: int, pivot: Point)
    requires 0 <= i < a.Length
    modifies a
    ensures a[..i + 1] == InsertByDistance(old(a[..i]), old(a[i]), pivot)
    ensures forall k :: i < k < a.Length ==> a[k] == old(a[k])
  {
    var key := a[i];
    ghost var sorted := a[..i];
    var j := i;
    while j > 0 && DistanceComparator(pivot, a[j - 1], key) > 0
      invariant 0 <= j <= i
      invariant forall k :: 0 <= k < j ==> a[k] == sorted[k]
      invariant forall k :: j < k <= i ==> a[k] == sorted[k - 1]
      invariant forall k :: i < k < a.Length ==> a[k] == old(a[k])
      invariant forall k :: j <= k < i ==> DistanceComparator(pivot, sorted[k], key) > 0
    {
      a[j] := a[j - 1];
      j := j - 1;
    }
    InsertByDistanceAt(sorted, key, pivot, j);
    a[j] := key;
    InsertedAt(a[..i + 1], sorted, key, j);
  }

  /** `points.sort(...)` in place, ordering by distance to the pivot. */
  method SortByDistanceInPlace(a: array<Point>, pivot: Point)
    modifies a
    ensures a[..] == SortByDistance(old(a[..]), pivot)
  {
    ghost var input := a[..];
    var i := 0;
    while i < a.Length
      invariant 0 <= i <= a.Length
      invariant a[..i] == SortByDistance(input[..i], pivot)
      invariant forall k :: i <= k < a.Length ==> a[k] == input[k]
    {
      assert input[..i + 1] == input[..i] + [input[i]];
      InsertInPlace(a, i, pivot);
      i := i + 1;
    }
    assert input[..a.Length] == input;
  }

  // ---------------------------------------------------------------------
  // Next intersection point (lib/windmill.ts:80-123)
  // ---------------------------------------------------------------------

  /** The plane without the pivot (lines 92-94). */
  function Candidates(plane: seq<Point>, pivot: Point): (c: seq<Point>)
    ensures forall p :: p in c <==> p in plane && p != pivot
    ensures |c| <= |plane|
  {
    FilterMembers(plane, p => p != pivot);
    Filter(plane, p => p != pivot)
  }

  /** Right of both tips of the line (lines 114-116, 139-140). */
  predicate RightOfLine(p: Point, segments: Segments)
  {
    p.x > segments.front.tip.x && p.x > segments.back.tip.x
  }

  /** Left of both tips of the line (lines 161-162). */
  predicate LeftOfLine(p: Point, segments: Segments)
  {
    p.x < segments.front.tip.x && p.x < segments.back.tip.x
  }

  /**
   * What `getNextIntersectionPoint` yields: a point, or one of its two failures. With no
   * candidate it throws when reading `closestPointToPivotPoint[0]`; with the closest
   * candidate right of the line and no second one, it returns `undefined`.
   */
  datatype NextPoint = Next(point: Point) | NoCandidate | NoSecondCandidate

  /** The next pivot: the closest candidate, or the second closest when the closest lies right of the line. */
  function NextIntersection(plane: seq<Point>, pivot: Point, line: Line): NextPoint
  {
    var sorted := SortByDistance(Candidates(plane, pivot), pivot);
    if sorted == [] then NoCandidate
    else if RightOfLine(sorted[0], DirectionalLineSegments(pivot, line)) then
      if |sorted| >= 2 then Next(sorted[1]) else NoSecondCandidate
    else Next(sorted[0])
  }

  /** `getNextIntersectionPoint(plane, pivot, line)`: filter, sort in place, then index. */
  method NextIntersectionPoint(plane: seq<Point>, pivot: Point, line: Line) returns (r: NextPoint)
    ensures r == NextIntersection(plane, pivot, line)
  {
    var candidates := Candidates(plane, pivot);
    var points := new Point[|candidates|](i requires 0 <= i < |candidates| => candidates[i]);
    assert points[..] == candidates;
    SortByDistanceInPlace(points, pivot);
    if points.Length == 0 {
      return NoCandidate;
    }
    var closest := points[0];
    var closestIndex := FindIndex(points[..], closest);
    assert closestIndex == 0;
    var segments := DirectionalLineSegments(pivot, line);
    var closestIsBehindLine := closest.x > segments.front.tip.x && closest.x > segments.back.tip.x;
    if closestIsBehindLine {
      if closestIndex + 1 < points.Length {
        r := Next(points[closestIndex + 1]);
      } else {
        r := NoSecondCandidate;
      }
    } else {
      r := Next(closest);
    }
  }

  /** The next pivot is a point of the plane other than the current pivot. */
  lemma NextIntersectionIsOtherPoint(plane: seq<Point>, pivot: Point, line: Line)
    ensures var r := NextIntersection(plane, pivot, line);
      r.Next? ==> r.point in plane && r.point != pivot
  {
    var c := Candidates(plane, pivot);
    SortByDistanceMembers(c, pivot);
  }

  /** The search fails exactly when no candidate is left, or when the only one lies right of the line. */
  lemma NextIntersectionFailures(plane: seq<Point>, pivot: Point, line: Line)
    ensures NextIntersection(plane, pivot, line) == NoCandidate
      <==> forall p :: p in plane ==> p == pivot
    ensures NextIntersection(plane, pivot, line) == NoSecondCandidate
      <==> (|Candidates(plane, pivot)| == 1
            && RightOfLine(Candidates(plane, pivot)[0], DirectionalLineSegments(pivot, line)))
  {
    var c := Candidates(plane, pivot);
    if |c| == 1 {
      assert c[..0] == [];
      assert SortByDistance(c, pivot) == [c[0]];
    }
    if c != [] {
      assert c[0] in plane;
    }
  }

  /**
   * Every candidate strictly closer to the pivot than the next point is one and
   * the same point, and it lies right of the line: the result is the closest
   * candidate, or the second closest when the closest lies right of the line.
   */
  lemma NextIntersectionIsNearestAhead(plane: seq<Point>, pivot: Point, line: Line)
    ensures var r := NextIntersection(plane, pivot, line);
      r.Next? ==>
        forall q :: q in Candidates(plane, pivot) && DistSq(q, pivot) < DistSq(r.point, pivot) ==>
          RightOfLine(q, DirectionalLineSegments(pivot, line)) &&
          forall q' :: q' in Candidates(plane, pivot) && DistSq(q', pivot) < DistSq(r.point, pivot) ==> q' == q
  {
    var c := Candidates(plane, pivot);
    SortByDistanceSorted(c, pivot);
    var sorted := SortByDistance(c, pivot);
    var r := NextIntersection(plane, pivot, line);
    if r.Next? {
      var k := if r.point == sorted[0] && !RightOfLine(sorted[0], DirectionalLineSegments(pivot, line)) then 0 else 1;
      assert r.point == sorted[k];
      forall q | q in c && DistSq(q, pivot) < DistSq(r.point, pivot)
        ensures q == sorted[0] && k == 1
      {
        assert q in multiset(sorted);
        var i :| 0 <= i < |sorted| && sorted[i] == q;
        assert i < k;
      }
    }
  }

  /**
   * Ties in distance go to plane order: the next point is the first candidate
   * at its distance from the pivot, or the second when the first is the
   * skipped closest point right of the line.
   */
  lemma NextIntersectionTieBreak(plane: seq<Point>, pivot: Point, line: Line)
    ensures var r := NextIntersection(plane, pivot, line);
      r.Next? ==>
        var ties := Filter(Candidates(plane, pivot), AtDistance(pivot, DistSq(r.point, pivot)));
        |ties| >= 1 &&
        (r.point == ties[0] ||
         (|ties| >= 2 && r.point == ties[1] && RightOfLine(ties[0], DirectionalLineSegments(pivot, line))))
  {
    var c := Candidates(plane, pivot);
    var sorted := SortByDistance(c, pivot);
    var r := NextIntersection(plane, pivot, line);
    if r.Next? {
      var at := AtDistance(pivot, DistSq(r.point, pivot));
      SortByDistanceStable(c, pivot, DistSq(r.point, pivot));
      SortByDistanceSorted(c, pivot);
      assert Filter(sorted, at) == (if at(sorted[0]) then [sorted[0]] else []) + Filter(sorted[1..], at);
      if r.point != sorted[0] {
        assert r.point == sorted[1];
        assert sorted[1..][0] == sorted[1];
        assert Filter(sorted[1..], at) == [sorted[1]] + Filter(sorted[2..], at) by {
          assert sorted[1..][1..] == sorted[2..];
        }
      }
    }
  }

  /** The non-pivot points of the plane of lib/windmill.test.ts:77-88 (pivot (3, 4)). */
  lemma TestPlaneCandidates()
    ensures Candidates([Point(1, 2), Point(3, 4), Point(2, 6)], Point(3, 4)) == [Point(1, 2), Point(2, 6)]
  {
    var notPivot := p => p != Point(3, 4);
    FilterCons(Point(2, 6), [], notPivot);
    FilterCons(Point(3, 4), [Point(2, 6)], notPivot);
    FilterCons(Point(1, 2), [Point(3, 4), Point(2, 6)], notPivot);
  }

  /** Seen from (3, 4), (2, 6) is nearer than (1, 2) and is ordered first. */
  lemma TestPlaneOrder()
    ensures SortByDistance([Point(1, 2), Point(2, 6)], Point(3, 4)) == [Point(2, 6), Point(1, 2)]
  {
    assert [Point(1, 2), Point(2, 6)][..1] == [Point(1, 2)];
    assert [Point(1, 2)][..0] == [];
    assert SortByDistance([Point(1, 2)], Point(3, 4)) == [Point(1, 2)];
    assert DistanceComparator(Point(3, 4), Point(1, 2), Point(2, 6)) == 3;
    assert InsertByDistance([Point(1, 2)], Point(2, 6), Point(3, 4)) == [Point(2, 6), Point(1, 2)];
  }

  /**
   * The plane of lib/windmill.test.ts:77-88 with pivot (3, 4): ordered by
   * distance, the next point is (2, 6), the nearer one, where the test
   * expects (1, 2).
   */
  lemma NextIntersectionOnTestPlane()
    ensures var plane := [Point(1, 2), Point(3, 4), Point(2, 6)];
      NextIntersection(plane, Point(3, 4), LinePointsFromPivot(plane, Point(3, 4)).value) == Next(Point(2, 6))
  {
    TestPlaneCandidates();
    TestPlaneOrder();
    LinePointsExample();
  }

  /** The non-pivot points of the plane of lib/windmill.test.ts:92-100 (pivot (2, 6)). */
  lemma SecondPlaneCandidates()
    ensures Candidates([Point(1, 2), Point(3, 4), Point(2, 6), Point(4, 5), Point(5, 3), Point(6, 1)], Point(2, 6))
         == [Point(1, 2), Point(3, 4), Point(4, 5), Point(5, 3), Point(6, 1)]
  {
    var notPivot := p => p != Point(2, 6);
    FilterCons(Point(6, 1), [], notPivot);
    FilterCons(Point(5, 3), [Point(6, 1)], notPivot);
    FilterCons(Point(4, 5), [Point(5, 3), Point(6, 1)], notPivot);
    FilterCons(Point(2, 6), [Point(4, 5), Point(5, 3), Point(6, 1)], notPivot);
    FilterCons(Point(3, 4), [Point(2, 6), Point(4, 5), Point(5, 3), Point(6, 1)], notPivot);
    FilterCons(Point(1, 2), [Point(3, 4), Point(2, 6), Point(4, 5), Point(5, 3), Point(6, 1)], notPivot);
  }

  /**
   * Seen from (2, 6), (3, 4) and (4, 5) are both at squared distance 5; the
   * stable order keeps (3, 4) first.
   */
  lemma SecondPlaneOrder()
    ensures SortByDistance([Point(1, 2), Point(3, 4), Point(4, 5), Point(5, 3), Point(6, 1)], Point(2, 6))
         == [Point(3, 4), Point(4, 5), Point(1, 2), Point(5, 3), Point(6, 1)]
  {
    var pivot := Point(2, 6);
    var c := [Point(1, 2), Point(3, 4), Point(4, 5), Point(5, 3), Point(6, 1)];
    assert c[..1][..0] == [];
    assert c[..2][..1] == c[..1] && c[..3][..2] == c[..2] && c[..4][..3] == c[..3] && c[..5][..4] == c[..4];
    assert SortByDistance(c[..1], pivot) == [Point(1, 2)];
    assert [Point(1, 2)][..0] == [];
    assert SortByDistance(c[..2], pivot) == [Point(3, 4), Point(1, 2)];
    assert [Point(3, 4), Point(1, 2)][..1] == [Point(3, 4)];
    assert InsertByDistance([Point(3, 4)], Point(4, 5), pivot) == [Point(3, 4), Point(4, 5)];
    assert SortByDistance(c[..3], pivot) == [Point(3, 4), Point(4, 5), Point(1, 2)];
    assert SortByDistance(c[..4], pivot) == [Point(3, 4), Point(4, 5), Point(1, 2), Point(5, 3)];
    assert c[..5] == c;
  }

  /**
   * The plane of lib/windmill.test.ts:92-106 with pivot (2, 6): the closest
   * candidate (3, 4) lies right of the vertical line x = 2, so the next point
   * is (4, 5), the later of the two candidates at squared distance 5.
   */
  lemma NextIntersectionOnSecondTestPlane()
    ensures var plane := [Point(1, 2), Point(3, 4), Point(2, 6), Point(4, 5), Point(5, 3), Point(6, 1)];
      NextIntersection(plane, Point(2, 6), LinePointsFromPivot(plane, Point(2, 6)).value) == Next(Point(4, 5))
  {
    var plane := [Point(1, 2), Point(3, 4), Point(2, 6), Point(4, 5), Point(5, 3), Point(6, 1)];
    SecondPlaneCandidates();
    SecondPlaneOrder();
    var line := LinePointsFromPivot(plane, Point(2, 6)).value;
    assert line.near.x == 2 && line.far.x == 2;
  }

  // ---------------------------------------------------------------------
  // Counting points either side of the line (lib/windmill.ts:125-167)
  // ---------------------------------------------------------------------

  /** A point right of both tips and not on the line through the front segment (lines 137-143). */
  predicate InFrontOfLine(p: Point, segments: Segments)
  {
    RightOfLine(p, segments) && !IsCollinear(segments.front.pivot, segments.front.tip, p)
  }

  /** A point left of both tips and not on the line through the front segment (lines 159-165). */
  predicate BehindLine(p: Point, segments: Segments)
  {
    LeftOfLine(p, segments) && !IsCollinear(segments.front.pivot, segments.front.tip, p)
  }

  /** `getNumberOfPointsInFrontOfLine(plane, pivot, line)`. */
  function PointsInFrontOfLine(plane: seq<Point>, pivot: Point, line: Line): (n: nat)
    ensures n <= |Candidates(plane, pivot)|
  {
    var segments := DirectionalLineSegments(pivot, line);
    |Filter(Candidates(plane, pivot), p => InFrontOfLine(p, segments))|
  }

  /** `getNumberOfPointsBehindLine(plane, pivot, line)`. */
  function PointsBehindLine(plane: seq<Point>, pivot: Point, line: Line): (n: nat)
    ensures n <= |Candidates(plane, pivot)|
  {
    var segments := DirectionalLineSegments(pivot, line);
    |Filter(Candidates(plane, pivot), p => BehindLine(p, segments))|
  }

  /** No point is both in front and behind, so the two counts share the non-pivot points. */
  lemma FrontAndBehindDisjoint(plane: seq<Point>, pivot: Point, line: Line)
    ensures PointsInFrontOfLine(plane, pivot, line) + PointsBehindLine(plane, pivot, line)
         <= |Candidates(plane, pivot)|
  {
    var segments := DirectionalLineSegments(pivot, line);
    FilterDisjoint(Candidates(plane, pivot), p => InFrontOfLine(p, segments), p => BehindLine(p, segments));
  }

  /** A copy of the pivot anywhere in the plane is never counted. */
  lemma CountsIgnorePivot(s: seq<Point>, t: seq<Point>, pivot: Point, line: Line)
    ensures PointsInFrontOfLine(s + [pivot] + t, pivot, line) == PointsInFrontOfLine(s + t, pivot, line)
    ensures PointsBehindLine(s + [pivot] + t, pivot, line) == PointsBehindLine(s + t, pivot, line)
  {
    var notPivot := p => p != pivot;
    FilterAppend(s + [pivot], t, notPivot);
    FilterAppend(s, [pivot], notPivot);
    FilterAppend(s, t, notPivot);
    FilterCons(pivot, [], notPivot);
    assert Candidates(s + [pivot] + t, pivot) == Candidates(s + t, pivot);
  }

  /** With the front tip at the pivot every point is collinear with the front segment: both counts are 0. */
  lemma CountsVanishWhenTipIsPivot(plane: seq<Point>, pivot: Point, line: Line)
    requires line.far == pivot
    ensures PointsInFrontOfLine(plane, pivot, line) == 0
    ensures PointsBehindLine(plane, pivot, line) == 0
  {
    var segments := DirectionalLineSegments(pivot, line);
    forall p ensures IsCollinear(pivot, pivot, p) {
      CollinearWithRepeatedPoint(pivot, p);
    }
    FilterNone(Candidates(plane, pivot), p => InFrontOfLine(p, segments));
    FilterNone(Candidates(plane, pivot), p => BehindLine(p, segments));
  }

  /**
   * On a vertical line through the pivot whose front tip is not the pivot,
   * "in front" is exactly "right of the pivot" and "behind" exactly "left of
   * it"; with the points above or below the pivot they split all non-pivot points.
   */
  lemma CountsOnVerticalLine(plane: seq<Point>, pivot: Point, line: Line)
    requires line.near.x == pivot.x && line.far.x == pivot.x && line.far.y != pivot.y
    ensures PointsInFrontOfLine(plane, pivot, line) == |Filter(Candidates(plane, pivot), (p: Point) => p.x > pivot.x)|
    ensures PointsBehindLine(plane, pivot, line) == |Filter(Candidates(plane, pivot), (p: Point) => p.x < pivot.x)|
    ensures PointsInFrontOfLine(plane, pivot, line) + PointsBehindLine(plane, pivot, line)
          + |Filter(Candidates(plane, pivot), (p: Point) => p.x == pivot.x)| == |Candidates(plane, pivot)|
  {
    var segments := DirectionalLineSegments(pivot, line);
    var c := Candidates(plane, pivot);
    forall p ensures IsCollinear(pivot, line.far, p) <==> p.x == pivot.x {
      var dy := line.far.y - pivot.y;
      assert IsCollinear(pivot, line.far, p) <==> dy * (p.x - pivot.x) == 0;
      assert dy != 0;
    }
    FilterCongruent(c, p => InFrontOfLine(p, segments), (p: Point) => p.x > pivot.x);
    FilterCongruent(c, p => BehindLine(p, segments), (p: Point) => p.x < pivot.x);
    FilterPartition(c, (p: Point) => p.x > pivot.x, (p: Point) => p.x < pivot.x, (p: Point) => p.x == pivot.x);
  }

  /** The line `getLinePointsFromPivot` builds is such a vertical line. */
  lemma CountsOnBuiltLine(plane: seq<Point>, pivot: Point)
    requires plane != []
    requires LinePointsFromPivot(plane, pivot).value.far.y != pivot.y
    ensures var line := LinePointsFromPivot(plane, pivot).value;
      PointsInFrontOfLine(plane, pivot, line) == |Filter(Candidates(plane, pivot), (p: Point) => p.x > pivot.x)| &&
      PointsBehindLine(plane, pivot, line) == |Filter(Candidates(plane, pivot), (p: Point) => p.x < pivot.x)|
  {
    CountsOnVerticalLine(plane, pivot, LinePointsFromPivot(plane, pivot).value);
  }

  /** The non-pivot points of the even plane of lib/windmill.test.ts:110-131 (pivot (3, 4)). */
  lemma EvenPlaneCandidates()
    ensures Candidates([Point(1, 2), Point(3, 4), Point(5, 6), Point(7, 8)], Point(3, 4))
         == [Point(1, 2), Point(5, 6), Point(7, 8)]
  {
    var notPivot := p => p != Point(3, 4);
    FilterCons(Point(7, 8), [], notPivot);
    FilterCons(Point(5, 6), [Point(7, 8)], notPivot);
    FilterCons(Point(3, 4), [Point(5, 6), Point(7, 8)], notPivot);
    FilterCons(Point(1, 2), [Point(3, 4), Point(5, 6), Point(7, 8)], notPivot);
  }

  /** The non-pivot points of the odd plane of lib/windmill.test.ts:133-154 (pivot (3, 4)). */
  lemma OddPlaneCandidates()
    ensures Candidates([Point(1, 2), Point(3, 4), Point(5, 6), Point(7, 8), Point(9, 10)], Point(3, 4))
         == [Point(1, 2), Point(5, 6), Point(7, 8), Point(9, 10)]
  {
    var notPivot := p => p != Point(3, 4);
    EvenPlaneCandidates();
    FilterAppend([Point(1, 2), Point(3, 4), Point(5, 6), Point(7, 8)], [Point(9, 10)], notPivot);
    FilterCons(Point(9, 10), [], notPivot);
    assert [Point(1, 2), Point(3, 4), Point(5, 6), Point(7, 8)] + [Point(9, 10)]
        == [Point(1, 2), Point(3, 4), Point(5, 6), Point(7, 8), Point(9, 10)];
  }

  /** The segments of the line [(2, 2), (6, 6)] seen from the pivot (3, 4). */
  function TestSegments(): Segments
  {
    DirectionalLineSegments(Point(3, 4), Line(Point(2, 2), Point(6, 6)))
  }

  /** Of (1, 2), (5, 6), (7, 8), (9, 10) only (7, 8) and (9, 10) are in front of that line. */
  lemma TestPointsInFront(tail: seq<Point>)
    requires tail == [] || tail == [Point(9, 10)]
    ensures Filter([Point(1, 2), Point(5, 6), Point(7, 8)] + tail, p => InFrontOfLine(p, TestSegments()))
         == [Point(7, 8)] + tail
  {
    assert TestSegments() == Segments(Segment(Point(3, 4), Point(6, 6)), Segment(Point(3, 4), Point(2, 2)));
    var front := p => InFrontOfLine(p, TestSegments());
    assert !front(Point(1, 2)) && !front(Point(5, 6)) && front(Point(7, 8)) && front(Point(9, 10));
    if tail != [] {
      FilterCons(Point(9, 10), [], front);
    }
    assert Filter(tail, front) == tail;
    FilterCons(Point(7, 8), tail, front);
    FilterCons(Point(5, 6), [Point(7, 8)] + tail, front);
    FilterCons(Point(1, 2), [Point(5, 6)] + ([Point(7, 8)] + tail), front);
    assert [Point(1, 2), Point(5, 6), Point(7, 8)] + tail == [Point(1, 2)] + ([Point(5, 6)] + ([Point(7, 8)] + tail));
  }

  /** Of (1, 2), (5, 6), (7, 8), (9, 10) only (1, 2) is behind that line. */
  lemma TestPointsBehind(tail: seq<Point>)
    requires tail == [] || tail == [Point(9, 10)]
    ensures Filter([Point(1, 2), Point(5, 6), Point(7, 8)] + tail, p => BehindLine(p, TestSegments()))
         == [Point(1, 2)]
  {
    assert TestSegments() == Segments(Segment(Point(3, 4), Point(6, 6)), Segment(Point(3, 4), Point(2, 2)));
    var behind := p => BehindLine(p, TestSegments());
    assert behind(Point(1, 2)) && !behind(Point(5, 6)) && !behind(Point(7, 8)) && !behind(Point(9, 10));
    if tail != [] {
      FilterCons(Point(9, 10), [], behind);
    }
    assert Filter(tail, behind) == [];
    FilterCons(Point(7, 8), tail, behind);
    FilterCons(Point(5, 6), [Point(7, 8)] + tail, behind);
    FilterCons(Point(1, 2), [Point(5, 6)] + ([Point(7, 8)] + tail), behind);
    assert [Point(1, 2), Point(5, 6), Point(7, 8)] + tail == [Point(1, 2)] + ([Point(5, 6)] + ([Point(7, 8)] + tail));
  }

  /** The even plane of lib/windmill.test.ts:110-131 and 157-174: one point each side. */
  lemma CountExampleEven()
    ensures var plane := [Point(1, 2), Point(3, 4), Point(5, 6), Point(7, 8)];
      PointsInFrontOfLine(plane, Point(3, 4), Line(Point(2, 2), Point(6, 6))) == 1 &&
      PointsBehindLine(plane, Point(3, 4), Line(Point(2, 2), Point(6, 6))) == 1
  {
    EvenPlaneCandidates();
    TestPointsInFront([]);
    TestPointsBehind([]);
    assert [Point(1, 2), Point(5, 6), Point(7, 8)] + [] == [Point(1, 2), Point(5, 6), Point(7, 8)];
  }

  /** The odd plane of lib/windmill.test.ts:133-154 and 176-221: the front count is the behind count plus one. */
  lemma CountExampleOdd()
    ensures var plane := [Point(1, 2), Point(3, 4), Point(5, 6), Point(7, 8), Point(9, 10)];
      PointsInFrontOfLine(plane, Point(3, 4), Line(Point(2, 2), Point(6, 6))) == 2 &&
      PointsBehindLine(plane, Point(3, 4), Line(Point(2, 2), Point(6, 6))) == 1
  {
    OddPlaneCandidates();
    TestPointsInFront([Point(9, 10)]);
    TestPointsBehind([Point(9, 10)]);
    assert [Point(1, 2), Point(5, 6), Point(7, 8)] + [Point(9, 10)] == [Point(1, 2), Point(5, 6), Point(7, 8), Point(9, 10)];
  }
}
