/** The minimum-area orientation search of the building preprocessor: given the
  * ordered vertices of a footprint's convex hull, try the rotation that aligns
  * each hull edge i -> i+1 with the x-axis and keep the one whose axis-aligned
  * bounding box is strictly smallest; then report the minimum corner of the
  * winning outline, which becomes the translation to the origin.
  *
  * The trigonometry is an input: `trig` maps an edge's (dx, dy) to the angle
  * `arctan(dy / dx)` with its cosine and sine. Everything else (the rotation of
  * the outline by that matrix, the bounding boxes, their areas, the strict
  * argmin) is exact arithmetic over reals. */
module Orientation {
  import opened Bounds
  import Meshes

  /** An angle with its cosine and sine; the matrix it stands for is ((c, -s), (s, c)). */
  datatype Rotation = Rotation(theta: real, c: real, s: real)

  /** Axis-aligned box given by its minimum and maximum corners. */
  datatype Box = Box(lo: Point, hi: Point)

  /** What the search keeps: the best area so far, the outline that has it, and its rotation
    * (`min_area`, `min_outline`, and `min_theta` with `min_R`). */
  datatype Choice = Choice(area: real, outline: seq<Point>, rot: Rotation)

  /** `min_theta = 0`, `min_R = np.eye(2)`. */
  const Identity := Rotation(0.0, 1.0, 0.0)

  /** `np.min(ps, axis=0)` and `np.max(ps, axis=0)`: the smallest box holding every point. */
  function BoundingBox(ps: seq<Point>): (b: Box)
    requires |ps| > 0
    ensures b.lo.x <= b.hi.x && b.lo.y <= b.hi.y
    ensures forall i :: 0 <= i < |ps| ==> b.lo.x <= ps[i].x <= b.hi.x && b.lo.y <= ps[i].y <= b.hi.y
    ensures b.lo.x in Xs(ps) && b.hi.x in Xs(ps) && b.lo.y in Ys(ps) && b.hi.y in Ys(ps)
  {
    var xs, ys := Xs(ps), Ys(ps);
    MinProperties(xs);
    MaxProperties(xs);
    MinProperties(ys);
    MaxProperties(ys);
    Box(Point(Min(xs), Min(ys)), Point(Max(xs), Max(ys)))
  }

  /** Area of the bounding box: never negative. */
  function Area(ps: seq<Point>): (a: real)
    requires |ps| > 0
    ensures a >= 0.0
  {
    var b := BoundingBox(ps);
    NonNegativeProduct(b.hi.x - b.lo.x, b.hi.y - b.lo.y);
    (b.hi.x - b.lo.x) * (b.hi.y - b.lo.y)
  }

  /** One row of `np.matmul(outline, R)`: the point as a row vector times ((c, -s), (s, c)). */
  function RotatePoint(p: Point, r: Rotation): Point
  {
    Point(p.x * r.c + p.y * r.s, -p.x * r.s + p.y * r.c)
  }

  function Rotated(ps: seq<Point>, r: Rotation): (q: seq<Point>)
    ensures |q| == |ps| && forall i :: 0 <= i < |ps| ==> q[i] == RotatePoint(ps[i], r)
  {
    seq(|ps|, i requires 0 <= i < |ps| => RotatePoint(ps[i], r))
  }

  /** The identity matrix leaves the outline as it is. */
  lemma RotatedByIdentity(ps: seq<Point>)
    ensures Rotated(ps, Identity) == ps
  {
  }

  /** `outline_points[i + 1, :] - outline_points[i, :]`. */
  function EdgeVector(hull: seq<Point>, i: nat): Point
    requires i + 1 < |hull|
  {
    Point(hull[i + 1].x - hull[i].x, hull[i + 1].y - hull[i].y)
  }

  /** The outline rotated so that edge i -> i+1 lies along the x-axis, with its area. */
  function Candidate(hull: seq<Point>, trig: Point -> Rotation, i: nat): Choice
    requires i + 1 < |hull|
  {
    var r := trig(EdgeVector(hull, i));
    var o := Rotated(hull, r);
    Choice(Area(o), o, r)
  }

  /** The starting point of the search: the unrotated outline and its axis-aligned area. */
  function Initial(hull: seq<Point>): (c: Choice)
    requires |hull| > 0
    ensures c.outline == Rotated(hull, c.rot) && c.rot == Identity
    ensures c.area == Area(c.outline)
  {
    RotatedByIdentity(hull);
    Choice(Area(hull), hull, Identity)
  }

  /** One candidate per edge i -> i+1 with i + 1 < |hull|; the closing edge from the last vertex
    * back to the first is not among them. */
  function Candidates(hull: seq<Point>, trig: Point -> Rotation): (cs: seq<Choice>)
    requires |hull| > 0
    ensures |cs| == |hull| - 1
    ensures forall i :: 0 <= i < |cs| ==> cs[i] == Candidate(hull, trig, i)
  {
    seq(|hull| - 1, i requires 0 <= i < |hull| - 1 => Candidate(hull, trig, i))
  }

  /** The choice held after looking at cs[0 .. k-1], starting from `init` and replacing the held
    * choice only by a candidate with a strictly smaller area. */
  function BestOf(init: Choice, cs: seq<Choice>, k: nat): Choice
    requires k <= |cs|
  {
    if k == 0 then init
    else
      var best := BestOf(init, cs, k - 1);
      if cs[k - 1].area < best.area then cs[k - 1] else best
  }

  /** The search result (`min_area`, `min_outline`, `min_R`, `min_theta` after the loop). */
  function Search(hull: seq<Point>, trig: Point -> Rotation): Choice
    requires |hull| > 0
  {
    BestOf(Initial(hull), Candidates(hull, trig), |hull| - 1)
  }

  /** The held area never grows: it is no larger than the start nor than any candidate looked at. */
  lemma {:induction false} BestMinimal(init: Choice, cs: seq<Choice>, k: nat)
    requires k <= |cs|
    ensures BestOf(init, cs, k).area <= init.area
    ensures forall j :: 0 <= j < k ==> BestOf(init, cs, k).area <= cs[j].area
  {
    if k > 0 {
      BestMinimal(init, cs, k - 1);
    }
  }

  /** The held choice is either the start, when no candidate was strictly better, or the FIRST
    * candidate reaching the least area: the start and every earlier candidate are strictly larger. */
  lemma {:induction false} BestOutcome(init: Choice, cs: seq<Choice>, k: nat)
    requires k <= |cs|
    ensures var best := BestOf(init, cs, k);
      (best == init && forall j :: 0 <= j < k ==> cs[j].area >= init.area)
      || exists w :: 0 <= w < k && best == cs[w] && best.area < init.area
           && forall j :: 0 <= j < w ==> cs[j].area > best.area
  {
    if k > 0 {
      BestOutcome(init, cs, k - 1);
      BestMinimal(init, cs, k - 1);
      var prev := BestOf(init, cs, k - 1);
      if cs[k - 1].area < prev.area {
        assert forall j :: 0 <= j < k - 1 ==> cs[j].area > cs[k - 1].area;
      } else if prev != init || exists j :: 0 <= j < k - 1 && cs[j].area < init.area {
        var w :| 0 <= w < k - 1 && prev == cs[w] && prev.area < init.area
                 && forall j :: 0 <= j < w ==> cs[j].area > prev.area;
        assert 0 <= w < k;
      }
    }
  }

  /** The search keeps the unrotated outline (theta 0, identity matrix) exactly when no edge gives a
    * strictly smaller area; otherwise it keeps the first edge with the least area. */
  lemma SearchOutcome(hull: seq<Point>, trig: Point -> Rotation)
    requires |hull| > 0
    ensures var best, cs := Search(hull, trig), Candidates(hull, trig);
      (best.rot == Identity && best.outline == hull && best.area == Area(hull)
         && forall j :: 0 <= j < |cs| ==> cs[j].area >= Area(hull))
      || exists w :: 0 <= w < |cs| && best == cs[w] && best.area < Area(hull)
           && forall j :: 0 <= j < w ==> cs[j].area > best.area
  {
    var cs, init := Candidates(hull, trig), Initial(hull);
    BestOutcome(init, cs, |hull| - 1);
  }

  /** The search result: its area is at most the unrotated one and at most every edge's, it is the
    * bounding-box area of the kept outline, and that outline is the hull rotated by the kept rotation. */
  lemma SearchProperties(hull: seq<Point>, trig: Point -> Rotation)
    requires |hull| > 0
    ensures Search(hull, trig).area <= Area(hull)
    ensures forall j :: 0 <= j < |hull| - 1 ==> Search(hull, trig).area <= Candidate(hull, trig, j).area
    ensures Search(hull, trig).outline == Rotated(hull, Search(hull, trig).rot)
    ensures Search(hull, trig).area == Area(Search(hull, trig).outline)
  {
    var cs, init := Candidates(hull, trig), Initial(hull);
    BestMinimal(init, cs, |hull| - 1);
    CandidatesConsistent(hull, trig);
    BestConsistent(hull, init, cs, |hull| - 1);
  }

  /** A choice whose outline is the hull rotated by its rotation, and whose area is that outline's. */
  ghost predicate Consistent(hull: seq<Point>, c: Choice)
  {
    |hull| > 0 && c.outline == Rotated(hull, c.rot) && c.area == Area(c.outline)
  }

  lemma CandidatesConsistent(hull: seq<Point>, trig: Point -> Rotation)
    requires |hull| > 0
    ensures forall j :: 0 <= j < |hull| - 1 ==> Consistent(hull, Candidates(hull, trig)[j])
  {
    forall j | 0 <= j < |hull| - 1
      ensures Consistent(hull, Candidates(hull, trig)[j])
    {
      assert Candidates(hull, trig)[j] == Candidate(hull, trig, j);
    }
  }

  /** The held choice stays consistent when the start and every candidate are. */
  lemma {:induction false} BestConsistent(hull: seq<Point>, init: Choice, cs: seq<Choice>, k: nat)
    requires k <= |cs| && Consistent(hull, init)
    requires forall j :: 0 <= j < |cs| ==> Consistent(hull, cs[j])
    ensures Consistent(hull, BestOf(init, cs, k))
  {
    if k > 0 {
      BestConsistent(hull, init, cs, k - 1);
      var prev := BestOf(init, cs, k - 1);
      if cs[k - 1].area < prev.area {
        assert BestOf(init, cs, k) == cs[k - 1];
      } else {
        assert BestOf(init, cs, k) == prev;
      }
    }
  }

  /** Only edges i -> i+1 with i + 1 < |hull| are looked at: two angle sources that agree on those
    * edges give the same result, whatever they say about the closing edge. */
  lemma SearchReadsOpenEdges(hull: seq<Point>, trig: Point -> Rotation, other: Point -> Rotation)
    requires |hull| > 0
    requires forall i :: 0 <= i < |hull| - 1 ==> trig(EdgeVector(hull, i)) == other(EdgeVector(hull, i))
    ensures Search(hull, trig) == Search(hull, other)
  {
    assert Candidates(hull, trig) == Candidates(hull, other);
  }

  /** The search loop (one pass over the hull edges, strict `<` update). */
  method MinAreaOrientation(hull: seq<Point>, trig: Point -> Rotation) returns (best: Choice)
    requires |hull| > 0
    ensures best == Search(hull, trig)
    ensures best.area <= Area(hull)
    ensures forall j :: 0 <= j < |hull| - 1 ==> best.area <= Candidate(hull, trig, j).area
    ensures best.outline == Rotated(hull, best.rot) && best.area == Area(best.outline)
  {
    ghost var cs := Candidates(hull, trig);
    var minArea := Area(hull);
    var minOutline := hull;
    var minRot := Identity;
    for i := 0 to |hull| - 1
      invariant Choice(minArea, minOutline, minRot) == BestOf(Initial(hull), cs, i)
    {
      var r := trig(EdgeVector(hull, i));
      var rotOutline := Rotated(hull, r);
      var rotArea := Area(rotOutline);
      assert cs[i] == Choice(rotArea, rotOutline, r);
      if rotArea < minArea {
        minArea, minOutline, minRot := rotArea, rotOutline, r;
      }
    }
    best := Choice(minArea, minOutline, minRot);
    SearchProperties(hull, trig);
  }

  /** `min_bound = np.min(min_outline, axis=0)`: the corner subtracted from the mesh. */
  function MinCorner(ps: seq<Point>): Point
    requires |ps| > 0
  {
    BoundingBox(ps).lo
  }

  function Translated(ps: seq<Point>, dx: real, dy: real): (q: seq<Point>)
    ensures |q| == |ps| && forall i :: 0 <= i < |ps| ==> q[i] == Point(ps[i].x + dx, ps[i].y + dy)
  {
    seq(|ps|, i requires 0 <= i < |ps| => Point(ps[i].x + dx, ps[i].y + dy))
  }

  /** Subtracting the minimum corner leaves every coordinate non-negative, with 0 reached on each axis. */
  lemma AlignedToOrigin(ps: seq<Point>)
    requires |ps| > 0
    ensures var q := Translated(ps, -MinCorner(ps).x, -MinCorner(ps).y);
      (forall i :: 0 <= i < |q| ==> q[i].x >= 0.0 && q[i].y >= 0.0)
      && (exists i :: 0 <= i < |q| && q[i].x == 0.0)
      && (exists i :: 0 <= i < |q| && q[i].y == 0.0)
  {
    var c := MinCorner(ps);
    var q := Translated(ps, -c.x, -c.y);
    var i :| 0 <= i < |ps| && Xs(ps)[i] == c.x;
    assert q[i].x == 0.0;
    var j :| 0 <= j < |ps| && Ys(ps)[j] == c.y;
    assert q[j].y == 0.0;
  }

  /** The preprocessing of one building: search the orientation of its hull, then subtract the
    * minimum corner of the winning outline from the mesh's ground coordinates. The rotation of the
    * mesh itself is not modelled; only the translation is applied to it here. */
  method AlignMesh(m: Meshes.Mesh, hull: seq<Point>, trig: Point -> Rotation) returns (best: Choice)
    requires m.Valid() && |hull| > 0
    modifies m.x, m.y
    ensures best == Search(hull, trig) && best.outline == Rotated(hull, best.rot)
    ensures m.x[..] == Shifted(old(m.x[..]), -MinCorner(best.outline).x)
    ensures m.y[..] == Shifted(old(m.y[..]), -MinCorner(best.outline).y)
  {
    best := MinAreaOrientation(hull, trig);
    var lo := MinCorner(best.outline);
    m.Translate(-lo.x, -lo.y);
  }
}
