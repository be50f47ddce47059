# Windmill step, modelled in Dafny

The model covers `lib/windmill.ts`, which computes one step of the windmill process over a finite set of integer points. Its operations are:

- generating a random plane of points on a `size × size` grid;
- testing three points for collinearity;
- choosing a random pivot;
- building the vertical line through the pivot, from the lowest to the highest y of the plane;
- splitting that line into a front and a back segment;
- finding the next point the line strikes;
- counting the points in front of and behind the line;
- the unused helper `getClosestNumber`.

Two modules hold the model:

- `JsArrays` (`js_arrays.dfy`) models the JavaScript array built-ins the code uses: `filter`, `findIndex`, and `undefined`/exceptions as `Option`.
- `Windmill` (`windmill.dfy`) models the module itself.

How the source maps to Dafny:

- A point `[x, y]` is `Point(x, y)`. A plane is a `seq<Point>`, in the order `Array.from` yields it. Equal coordinates may repeat, because a JavaScript `Set` of arrays keeps distinct array objects.
- `Math.random()` is a parameter: a `real` in `[0, 1)`, one per call.
  - `generateRandomPlane` takes a grid of draws, `draws[x][y] = CellDraw(keep, dx, dy)` for cell `(x, y)`. `keep` is the draw at line 19. `dx` and `dy` are the draws at lines 20-21, which the source makes, and the model uses, only when the cell is kept.
  - `getPivotPoint` takes one draw.
- `generateRandomPlane` is a `method` with the source's two nested loops. It is proved to build exactly `GridPoints`, the specification function that describes the loop's output.
- `getNextIntersectionPoint` is a `method`. It sorts an `array` of candidates in place, then indexes it and calls `findIndex`, as the source does. It is proved equal to the function `NextIntersection`, and the lemmas about the result are stated on that function.
- The in-place sort is an insertion sort. It is specified by a functional stable insertion sort, `SortByDistance`. That function is proved sorted, a permutation of its input, and stable: points at equal distance keep their input order, as `Array.prototype.sort` guarantees.
- Failures keep their distinct JavaScript outcomes:
  - `getPivotPoint` on an empty plane returns `undefined`: `None`.
  - `getLinePointsFromPivot` on an empty plane throws at `points[0]![1]`: `None`.
  - `getClosestNumber` on an empty array throws from `reduce`: `None`.
  - `getNextIntersectionPoint` with no candidate throws at `closestPointToPivotPoint[0]`: `NoCandidate`.
  - `getNextIntersectionPoint`, when the closest candidate lies right of the line and there is no second candidate, returns `undefined`: `NoSecondCandidate`.

The source uses the words "behind" and "in front" inconsistently:

- In `getNextIntersectionPoint` (lines 113-116), "behind the line" means x greater than both tips.
- In `getNumberOfPointsInFrontOfLine` (lines 137-143), the same test, x greater than both tips, means "in front".

The model names the shared test `RightOfLine` and follows each function's own use.

## Model

| member | source | states |
|---|---|---|
| Windmill.IsCollinear | lib/windmill.ts:1-5 | `isCollinear` as written: `(y2-y1)(x3-x2) = (y3-y2)(x2-x1)` on integers. What it means is stated by the four lemmas below. |
| Windmill.CollinearIffCrossZero | lib/windmill.ts:1-5 | The identity `(y2-y1)(x3-x2) = (y3-y2)(x2-x1)` holds exactly when the orientation determinant of the three points is zero. |
| Windmill.CollinearWithRepeatedPoint | lib/windmill.ts:1-5 | A triple in which two points coincide is always collinear, in every position of the repeat. |
| Windmill.CollinearSymmetric | lib/windmill.ts:1-5 | Collinearity gives the same answer for the reversed triple, a rotation of it, and a swap of the first two points. |
| Windmill.CollinearExamples | lib/windmill.ts:1-5 | (1,2),(3,4),(5,6) are collinear; (1,2),(3,4),(5,7) are not. |
| Windmill.ScaledFloor | lib/windmill.ts:14 | `Math.floor(u * n)` for a draw `u` in [0,1) is an index in `[0, n)`, and 0 when `n` is 0. |
| Windmill.ScaledFloorReaches | lib/windmill.ts:14 | Every index below `n` is produced by some draw. |
| Windmill.RandomNumber | lib/windmill.ts:13-15 | `getRandomNumber(min, max)` lies in `[min, max]`. |
| Windmill.RandomNumberReaches | lib/windmill.ts:13-15 | Every integer of `[min, max]` is a possible result of `getRandomNumber`. |
| Windmill.CellPoint | lib/windmill.ts:20-22 | The point added for cell `(x, y)` lies in `[x, x+1] × [y, y+1]`. |
| Windmill.CellPointReachesCorners | lib/windmill.ts:20-22 | Each of the four corners of a cell is a possible added point. |
| Windmill.GenerateRandomPlane | lib/windmill.ts:7-28 | The nested loops build exactly the kept cells' points, in loop order. Each cell is kept when its draw is below `density`, and no loop runs when `size <= 0`. |
| Windmill.ColumnPointsBounds | lib/windmill.ts:18-24 | One column contributes at most one point per cell, all with x in `[x, x+1]`. It contributes nothing at density <= 0 and one point per cell at density >= 1. |
| Windmill.GridPointsBounds | lib/windmill.ts:17-25 | The same bounds over the first `m` columns: at most `m·side` points, coordinates in range, empty or full by density. |
| Windmill.RandomPlaneBounds | lib/windmill.ts:7-28 | A generated plane has at most `size²` points, with every coordinate in `[0, size]`. It is empty when density <= 0 and has exactly `size²` points when density >= 1. |
| Windmill.PivotPoint | lib/windmill.ts:30-34 | The pivot is defined exactly when the plane is non-empty, and it is then a point of the plane. |
| Windmill.PivotPointReachesEveryPoint | lib/windmill.ts:30-34 | Every point of the plane is chosen by some draw. |
| Windmill.LowestY | lib/windmill.ts:43-46 | The min-fold is at most its initial value and at most every y. It equals the initial value or the y of some point. |
| Windmill.HighestY | lib/windmill.ts:47-50 | The max-fold is at least its initial value and at least every y. It equals the initial value or the y of some point. |
| Windmill.LinePointsFromPivot | lib/windmill.ts:37-56 | On a non-empty plane, both ends have the pivot's x. The first end's y is at most every y of the plane, and the second end's y at least every y. Both are attained by points of the plane, so first.y <= second.y. An empty plane yields the error. |
| Windmill.LinePointsExample | lib/windmill.ts:41-55 | Plane (1,2),(3,4),(5,6) with pivot (3,4) gives the line (3,2)–(3,6). |
| Windmill.DirectionalLineSegments | lib/windmill.ts:58-72 | Both segments start at the pivot. The back segment ends at `line[0]` and the front one at `line[1]`. |
| Windmill.SegmentsOfBuiltLine | lib/windmill.ts:37-72 | On the line built from the pivot, both tips have the pivot's x, and every y of the plane lies between the back tip and the front tip. |
| Windmill.ReduceClosest | lib/windmill.ts:75-77 | The fold returns an element of the array with minimal distance to the target. |
| Windmill.ClosestNumber | lib/windmill.ts:74-78 | `getClosestNumber` is defined exactly on non-empty arrays and then returns an element with minimal `abs(v - target)`. |
| Windmill.ReduceClosestIsEarliest | lib/windmill.ts:75-77 | The result sits at an index before which every element is strictly farther, so ties go to the earliest element. |
| Windmill.ClosestNumberIsEarliestNearest | lib/windmill.ts:74-78 | The result is a nearest element, and every element before its first occurrence is strictly farther. |
| Windmill.DistSq | lib/windmill.ts:96-100 | The squared distance is non-negative and zero exactly for equal points. |
| Windmill.SourceComparatorInconsistent | lib/windmill.ts:95-101 | The comparator as written ranks a point after itself whenever its y differs from the pivot's. With pivot (3,4) it ranks (1,2) after (2,6) and (2,6) after (1,2), although (2,6) is nearer. |
| Windmill.SourceComparator | lib/windmill.ts:96-100 | The comparator as written, with JavaScript precedence and `sqrt(n²) = abs(n)` on integers: `abs(dx1) + dy1² - abs(dx2) + dy2²`. Its defect is stated by `SourceComparatorInconsistent`. |
| Windmill.DistanceComparator | lib/windmill.ts:95-101 | The intended comparator is zero exactly when the two points are equally far from the pivot, and negative exactly when the first is nearer. |
| Windmill.DistanceComparatorConsistent | lib/windmill.ts:95-101 | The intended comparator is zero on equal points, antisymmetric and transitive. |
| Windmill.SortByDistance | lib/windmill.ts:95-101 | The order `points.sort` produces with the intended comparator: a stable insertion sort by distance to the pivot, of the same length as its input. Its order, permutation and stability are stated by the lemmas below. |
| Windmill.InsertByDistanceSorted | lib/windmill.ts:95-101 | Inserting a point into a list sorted by distance keeps it sorted and adds exactly that point. |
| Windmill.SortByDistanceSorted | lib/windmill.ts:95-101 | The sorted candidates are non-decreasing in distance from the pivot and are a permutation of the input. |
| Windmill.InsertByDistanceStable | lib/windmill.ts:95-101 | Insertion keeps the points at each distance in order, with the inserted point after those at its distance already present. |
| Windmill.SortByDistanceStable | lib/windmill.ts:95-101 | The sort is stable: for every distance `d`, the points at distance `d` appear in the sorted order exactly as in the input. |
| Windmill.SortByDistanceMembers | lib/windmill.ts:95-101 | Every point of the sorted order is a point of the input. |
| Windmill.InsertInPlace | lib/windmill.ts:95-101 | One pass of the in-place sort leaves `a[..i+1]` as `a[i]` inserted into the sorted `a[..i]`, and leaves the rest of the array unchanged. |
| Windmill.SortByDistanceInPlace | lib/windmill.ts:95-101 | Sorting the array in place leaves exactly the stable distance order of its old contents. |
| JsArrays.FilterMembers | lib/windmill.ts:92-94 | A filtered array holds exactly the elements that pass the test. |
| Windmill.Candidates | lib/windmill.ts:92-94 | The candidates are exactly the points of the plane other than the pivot. |
| JsArrays.FindIndex | lib/windmill.ts:103-106 | `findIndex` returns -1 exactly when the value is absent. Otherwise it returns an index holding the value with no earlier occurrence. |
| Windmill.NextIntersection | lib/windmill.ts:87-123 | The value `getNextIntersectionPoint` returns: sorted[0], or sorted[1] when sorted[0] lies right of both tips, or one of the two failures. Its properties are stated by the `NextIntersection*` lemmas. |
| Windmill.NextIntersectionPoint | lib/windmill.ts:87-123 | Filtering, sorting in place, `findIndex` (which is always 0 here) and the right-of-line test yield the closest candidate, or the second closest when the closest lies right of the line. The method returns one of the two failures when there is no such point. |
| Windmill.NextIntersectionIsOtherPoint | lib/windmill.ts:87-123 | The next point is a point of the plane other than the pivot. |
| Windmill.NextIntersectionFailures | lib/windmill.ts:102-122 | No next point exists exactly when every point is the pivot. There is no second candidate exactly when a single candidate exists and it lies right of the line. |
| Windmill.NextIntersectionIsNearestAhead | lib/windmill.ts:95-122 | Every candidate strictly nearer than the next point lies right of the line, and all such candidates are one and the same point. |
| Windmill.NextIntersectionTieBreak | lib/windmill.ts:95-120 | Ties go to plane order: the next point is the first candidate at its distance. Otherwise it is the second, and then the first is the skipped closest point right of the line. |
| Windmill.TestPlaneCandidates | lib/windmill.ts:92-94 | Plane (1,2),(3,4),(2,6) with pivot (3,4) leaves the candidates (1,2),(2,6). |
| Windmill.TestPlaneOrder | lib/windmill.ts:95-101 | Seen from (3,4), the distance order of (1,2),(2,6) is (2,6),(1,2). |
| Windmill.NextIntersectionOnTestPlane | lib/windmill.ts:87-123 | On plane (1,2),(3,4),(2,6) with pivot (3,4) and its built line, the intended order gives the next point (2,6). |
| Windmill.SecondPlaneCandidates | lib/windmill.ts:92-94 | Plane (1,2),(3,4),(2,6),(4,5),(5,3),(6,1) with pivot (2,6) leaves the candidates (1,2),(3,4),(4,5),(5,3),(6,1). |
| Windmill.SecondPlaneOrder | lib/windmill.ts:95-101 | Seen from (2,6), the stable distance order of those candidates is (3,4),(4,5),(1,2),(5,3),(6,1). (3,4) and (4,5) tie at squared distance 5 and keep their input order. |
| Windmill.NextIntersectionOnSecondTestPlane | lib/windmill.ts:87-123 | On that plane with its built line x = 2, the closest candidate (3,4) lies right of the line, so the next point is (4,5). |
| Windmill.PointsInFrontOfLine | lib/windmill.ts:125-145 | The front count never exceeds the number of non-pivot points. |
| Windmill.PointsBehindLine | lib/windmill.ts:147-167 | The behind count never exceeds the number of non-pivot points. |
| Windmill.FrontAndBehindDisjoint | lib/windmill.ts:125-167 | No point is both in front and behind, so front + behind <= the number of non-pivot points. |
| Windmill.CountsIgnorePivot | lib/windmill.ts:125-167 | Inserting a copy of the pivot at any position of the plane changes neither count. |
| Windmill.CountsVanishWhenTipIsPivot | lib/windmill.ts:125-167 | When `line[1]` is the pivot, every point is collinear with the front segment and both counts are 0. |
| Windmill.CountsOnVerticalLine | lib/windmill.ts:125-167 | On a vertical line through the pivot whose front tip is not the pivot: front counts the non-pivot points with x > pivot.x, and behind counts those with x < pivot.x. Together with the points with x = pivot.x they account for every non-pivot point. |
| Windmill.CountsOnBuiltLine | lib/windmill.ts:125-167 | The line `getLinePointsFromPivot` builds, with maxY ≠ pivot.y, is such a line, so the same two equalities hold. |
| Windmill.EvenPlaneCandidates | lib/windmill.ts:134-136 | Plane (1,2),(3,4),(5,6),(7,8) with pivot (3,4) leaves the candidates (1,2),(5,6),(7,8). |
| Windmill.OddPlaneCandidates | lib/windmill.ts:134-136 | Adding (9,10) to that plane appends (9,10) to the candidates. |
| Windmill.TestPointsInFront | lib/windmill.ts:137-143 | Against the line (2,2)–(6,6) with pivot (3,4), of (1,2),(5,6),(7,8)[,(9,10)] exactly (7,8)[,(9,10)] are in front. |
| Windmill.TestPointsBehind | lib/windmill.ts:159-165 | Against the same line, only (1,2) is behind. |
| Windmill.CountExampleEven | lib/windmill.ts:125-167 | For the four-point plane, front = 1 and behind = 1. |
| Windmill.CountExampleOdd | lib/windmill.ts:125-167 | For the five-point plane, front = 2 and behind = 1, so front = behind + 1. |

## Findings

| source | as written | input that shows it | evidently intended | confidence | as-written member | corrected member |
|---|---|---|---|---|---|---|
| lib/windmill.ts:95-101 | By precedence, the comparator computes `sqrt(dx1²) + dy1² - sqrt(dx2²) + dy2²`, that is `abs(dx1) + dy1² - abs(dx2) + dy2²`. This is not an order: compare(a, a) > 0 whenever a.y ≠ pivot.y. | Pivot (3,4), a = (1,2), b = (2,6) (the plane of lib/windmill.test.ts:77-88). compare(a, b) = 9 and compare(b, a) = 7, so each is ranked after the other, although b is nearer. | Order the candidates by distance to the pivot, as the comment at lines 80-85 says ("a point that is closer to the pivot point will always be chosen"). The corrected comparator is the difference of squared distances. | not executed | Windmill.SourceComparatorInconsistent | Windmill.SortByDistanceSorted |

The rest of the model uses the corrected order. With it, the two cases of lib/windmill.test.ts:75-107 yield (2,6) (`NextIntersectionOnTestPlane`) and (4,5) (`NextIntersectionOnSecondTestPlane`), rather than the (1,2) both tests expect.

## Left out

- `Math.random()` is not modelled as a source of randomness. Each call's result is a parameter in `[0, 1)`, and the `*Reaches` lemmas show that every outcome is reachable. The assertion at lib/windmill.test.ts:19 that a generated plane is non-empty holds only with high probability, so it is not a property of the code.
- JavaScript `number` semantics are not modelled: coordinates, `size` and the `Math.floor` results are integers. A non-integer or `NaN` `size` or `density` is not modelled.
- `Math.sqrt` is not modelled. The corrected order compares squared distances, which ranks points exactly as true distances do.
- `SortByDistanceInPlace`: does not model what `Array.prototype.sort` does with the source's inconsistent comparator. That order is engine-defined. The model sorts stably by distance (see Findings).
- The expected results of the two cases at lib/windmill.test.ts:75-107 are not reproduced. They depend on the inconsistent comparator. The model proves what the intended order yields for them instead: (2,6) and (4,5).
- JavaScript `Set` identity is not modelled. A plane is a sequence of coordinate values, and `Set.add` of a fresh array never merges points, so duplicates are kept.
- `getPivotPoint` is modelled with its draw `u`. The index `floor(u · |plane|)` it computes is covered by `PivotPointReachesEveryPoint`.
- Whether a JavaScript exception or `undefined` is produced is recorded as a result constructor. Propagation of the exception to the caller is not modelled.
- `PointsInFrontOfLine` and `PointsBehindLine` state only an upper bound in their own contracts. Their exact meaning is stated by `CountsOnVerticalLine`, `CountsVanishWhenTipIsPivot`, `FrontAndBehindDisjoint` and the example lemmas.
- `vitest.config.ts` is test-runner configuration and is not part of this model. `lib/windmill.test.ts` is used only as a source of concrete cases.
