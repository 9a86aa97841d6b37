/** cluster_moving: the largest group of moving keypoints and its box. */
module Clustering {
  import opened Options
  import opened Proximity
  import opened Reals
  import opened Sequences
  import opened UnionFind

  // ---------------------------------------------------------------- extremes with a sentinel

  /** The least of big and the coordinates of the first k points labelled r. */
  function Low(c: seq<real>, rep: seq<nat>, r: nat, k: nat, big: real): real
    requires k <= |rep| == |c|
  {
    if k == 0 then big
    else
      var v := Low(c, rep, r, k - 1, big);
      if rep[k - 1] == r && c[k - 1] < v then c[k - 1] else v
  }

  function High(c: seq<real>, rep: seq<nat>, r: nat, k: nat, big: real): real
    requires k <= |rep| == |c|
  {
    if k == 0 then -big
    else
      var v := High(c, rep, r, k - 1, big);
      if rep[k - 1] == r && c[k - 1] > v then c[k - 1] else v
  }

  /** v is the least of big and the values c[j] for j in s. */
  ghost predicate IsLow(v: real, c: seq<real>, s: set<nat>, big: real) {
    && v <= big
    && (forall j :: j in s && j < |c| ==> v <= c[j])
    && (v == big || exists j :: j in s && j < |c| && c[j] == v)
  }

  ghost predicate IsHigh(v: real, c: seq<real>, s: set<nat>, big: real) {
    && v >= -big
    && (forall j :: j in s && j < |c| ==> v >= c[j])
    && (v == -big || exists j :: j in s && j < |c| && c[j] == v)
  }

  lemma {:induction false} LowIsLow(c: seq<real>, rep: seq<nat>, r: nat, k: nat, big: real)
    requires k <= |rep| == |c|
    ensures IsLow(Low(c, rep, r, k, big), c, Labelled(rep, r, k), big)
  {
    if k == 0 {
    } else {
      LowIsLow(c, rep, r, k - 1, big);
      var v, v0 := Low(c, rep, r, k, big), Low(c, rep, r, k - 1, big);
      if v != big {
        if v == v0 {
          var j :| j in Labelled(rep, r, k - 1) && j < |c| && c[j] == v0;
          assert j in Labelled(rep, r, k) && c[j] == v;
        } else {
          assert k - 1 in Labelled(rep, r, k) && c[k - 1] == v;
        }
      }
      forall j | j in Labelled(rep, r, k) && j < |c| ensures v <= c[j] {
        if j < k - 1 { assert j in Labelled(rep, r, k - 1); }
      }
    }
  }

  lemma {:induction false} HighIsHigh(c: seq<real>, rep: seq<nat>, r: nat, k: nat, big: real)
    requires k <= |rep| == |c|
    ensures IsHigh(High(c, rep, r, k, big), c, Labelled(rep, r, k), big)
  {
    if k == 0 {
    } else {
      HighIsHigh(c, rep, r, k - 1, big);
      var v, v0 := High(c, rep, r, k, big), High(c, rep, r, k - 1, big);
      if v != -big {
        if v == v0 {
          var j :| j in Labelled(rep, r, k - 1) && j < |c| && c[j] == v0;
          assert j in Labelled(rep, r, k) && c[j] == v;
        } else {
          assert k - 1 in Labelled(rep, r, k) && c[k - 1] == v;
        }
      }
      forall j | j in Labelled(rep, r, k) && j < |c| ensures v >= c[j] {
        if j < k - 1 { assert j in Labelled(rep, r, k - 1); }
      }
    }
  }

  function Xs(pts: seq<Point>): (c: seq<real>)
    ensures |c| == |pts|
  {
    seq(|pts|, i requires 0 <= i < |pts| => pts[i].x)
  }

  function Ys(pts: seq<Point>): (c: seq<real>)
    ensures |c| == |pts|
  {
    seq(|pts|, i requires 0 <= i < |pts| => pts[i].y)
  }

  /** The size and the extreme coordinates of a group of points. */
  datatype Extent = Extent(n: nat, x0: real, y0: real, x1: real, y1: real)

  ghost predicate IsExtentOf(e: Extent, pts: seq<Point>, s: set<nat>, big: real) {
    && e.n == |s|
    && IsLow(e.x0, Xs(pts), s, big) && IsLow(e.y0, Ys(pts), s, big)
    && IsHigh(e.x1, Xs(pts), s, big) && IsHigh(e.y1, Ys(pts), s, big)
  }

  /** With all coordinates inside the sentinels, every side of the box touches a point. */
  lemma ExtentIsTight(e: Extent, pts: seq<Point>, s: set<nat>, big: real)
    requires IsExtentOf(e, pts, s, big) && s != {} && forall j :: j in s ==> j < |pts|
    requires forall j :: j in s ==> -big <= pts[j].x <= big && -big <= pts[j].y <= big
    ensures forall j :: j in s ==> e.x0 <= pts[j].x <= e.x1 && e.y0 <= pts[j].y <= e.y1
    ensures (exists j :: j in s && pts[j].x == e.x0) && (exists j :: j in s && pts[j].x == e.x1)
    ensures (exists j :: j in s && pts[j].y == e.y0) && (exists j :: j in s && pts[j].y == e.y1)
  {
    var m :| m in s;
    assert Xs(pts)[m] == pts[m].x && Ys(pts)[m] == pts[m].y;
    assert forall j :: j in s ==> Xs(pts)[j] == pts[j].x && Ys(pts)[j] == pts[j].y;
  }

  // ---------------------------------------------------------------- the largest component

  ghost predicate IsLargestComponent(pts: seq<Point>, cell: real, i: nat) {
    i < |pts| && forall j :: 0 <= j < |pts| ==> |Component(pts, cell, j)| <= |Component(pts, cell, i)|
  }

  /** Of the largest components, the one whose root is smallest. */
  ghost predicate IsChosenComponent(pts: seq<Point>, cell: real, i: nat) {
    && IsLargestComponent(pts, cell, i)
    && forall j: nat :: IsLargestComponent(pts, cell, j) ==> Roots(pts, cell)[i] <= Roots(pts, cell)[j]
  }

  /** There is only one such component, so what is reported is determined. */
  lemma ChosenIsUnique(pts: seq<Point>, cell: real, i: nat, j: nat)
    requires IsChosenComponent(pts, cell, i) && IsChosenComponent(pts, cell, j)
    ensures Component(pts, cell, i) == Component(pts, cell, j)
  {
    RootsAreComponents(pts, cell);
    var rep := Roots(pts, cell);
    hide Roots;
    assert rep[i] == rep[j];
    LabelledIsComponent(pts, cell, rep, i);
    LabelledIsComponent(pts, cell, rep, j);
  }

  /** The box loop over the members of one class. */
  method BoxOf(pts: seq<Point>, parent: array<nat>, root: nat, best: nat, big: real,
               ghost rep: seq<nat>, ghost depth: seq<nat>) returns (e: Extent)
    requires Forest(parent[..], rep, depth) && parent.Length == |pts| == |rep|
    requires best == |Labelled(rep, root, |rep|)|
    modifies parent
    ensures IsExtentOf(e, pts, Labelled(rep, root, |rep|), big)
  {
    hide Forest, Labelled;
    var n := |pts|;
    var x0, y0, x1, y1 := big, big, -big, -big;
    var i := 0;
    while i < n
      invariant 0 <= i <= n && Forest(parent[..], rep, depth)
      invariant x0 == Low(Xs(pts), rep, root, i, big) && y0 == Low(Ys(pts), rep, root, i, big)
      invariant x1 == High(Xs(pts), rep, root, i, big) && y1 == High(Ys(pts), rep, root, i, big)
    {
      var f := Find(parent, i, rep, depth);
      if f == root {
        x0 := if pts[i].x < x0 then pts[i].x else x0;
        y0 := if pts[i].y < y0 then pts[i].y else y0;
        x1 := if pts[i].x > x1 then pts[i].x else x1;
        y1 := if pts[i].y > y1 then pts[i].y else y1;
      }
      i := i + 1;
    }
    e := Extent(best, x0, y0, x1, y1);
    LowIsLow(Xs(pts), rep, root, n, big);
    LowIsLow(Ys(pts), rep, root, n, big);
    HighIsHigh(Xs(pts), rep, root, n, big);
    HighIsHigh(Ys(pts), rep, root, n, big);
  }

  /** The first root of largest count is the root of the chosen component. */
  lemma LargestClass(pts: seq<Point>, cell: real, rep: seq<nat>, root: nat, best: nat)
    requires IsComponentMap(pts, cell, rep) && root < |rep| && rep == Roots(pts, cell)
    requires best == |Labelled(rep, root, |rep|)| > 0
    requires forall r: nat :: r < |rep| ==> |Labelled(rep, r, |rep|)| <= best
    requires forall r: nat :: r < root ==> |Labelled(rep, r, |rep|)| < best
    requires forall i :: 0 <= i < |rep| ==> rep[i] < |rep|
    ensures exists i :: IsChosenComponent(pts, cell, i) && Component(pts, cell, i) == Labelled(rep, root, |rep|)
  {
    hide Roots;
    var i: nat :| i in Labelled(rep, root, |rep|);
    LabelledIsComponent(pts, cell, rep, i);
    forall j: nat | j < |pts| ensures |Component(pts, cell, j)| <= |Component(pts, cell, i)| {
      LabelledIsComponent(pts, cell, rep, j);
    }
    forall j: nat | IsLargestComponent(pts, cell, j) ensures rep[i] <= rep[j] {
      LabelledIsComponent(pts, cell, rep, j);
    }
    assert IsChosenComponent(pts, cell, i);
  }

  lemma SomeClass(rep: seq<nat>) returns (r: nat)
    requires |rep| > 0 && forall i :: 0 <= i < |rep| ==> rep[i] < |rep|
    ensures r < |rep| && |Labelled(rep, r, |rep|)| > 0
  {
    r := rep[0];
    assert 0 in Labelled(rep, r, |rep|);
  }

  /** The largest cluster with at least minPts members, if there is one; of several, the one with the
      smallest root. */
  method LargestCluster(pts: seq<Point>, minPts: int, cell: real, big: real) returns (blob: Option<Extent>)
    ensures blob.Some? <==> exists i :: 0 <= i < |pts| && |Component(pts, cell, i)| >= minPts
    ensures blob.Some? ==> exists i :: IsChosenComponent(pts, cell, i)
                                       && IsExtentOf(blob.value, pts, Component(pts, cell, i), big)
  {
    var n := |pts|;
    forall i: nat | i < n ensures |Component(pts, cell, i)| <= n { SizeBelow(Component(pts, cell, i), n); }
    hide Component, Labelled, Roots, Forest, IsExtentOf;
    if n < minPts { return None; }
    var parent, rep, depth := UniteNear(pts, cell);
    RepsInRange(parent[..], rep, depth);
    var cnt := ClassSizes(parent, rep, depth);
    var root, best := Largest(cnt);
    if root < 0 {
      if n > 0 { ghost var r := SomeClass(rep); }
      return None;
    }
    LargestClass(pts, cell, rep, root, best);
    if best < minPts { return None; }
    var e := BoxOf(pts, parent, root, best, big, rep, depth);
    blob := Some(e);
  }

  // ---------------------------------------------------------------- moving keypoints

  datatype MatchPair = MatchPair(idx: int, a: Point, b: Point)

  datatype Affine = Affine(m0: real, m1: real, m2: real, m3: real, m4: real, m5: real)

  datatype Box = Box(x: real, y: real, w: real, h: real)

  datatype MotionBlob = MotionBlob(box: Box, n: int, ok: bool)

  const NO_BLOB := MotionBlob(Box(0.0, 0.0, 0.0, 0.0), 0, false)

  /** The extreme starting values of the box loop. */
  const BIG: real := 1e300

  function ApplyAffine(m: Affine, p: Point): Point {
    Point(m.m0 * p.x + m.m1 * p.y + m.m2, m.m3 * p.x + m.m4 * p.y + m.m5)
  }

  /** The squared displacement left after the camera's motion is taken out. */
  function SquaredResidual(m: Affine, mp: MatchPair): real {
    var q := ApplyAffine(m, mp.a);
    Square(q.x - mp.b.x) + Square(q.y - mp.b.y)
  }

  /** The residual, the root of its square, reaches the threshold. */
  predicate Moves(m: Affine, mp: MatchPair, thresh: real) {
    thresh <= 0.0 || SquaredResidual(m, mp) >= Square(thresh)
  }

  /** Comparing squares is comparing the roots. */
  lemma MovesIsRootComparison(m: Affine, mp: MatchPair, thresh: real, root: real)
    requires root >= 0.0 && Square(root) == SquaredResidual(m, mp)
    ensures Moves(m, mp, thresh) <==> root >= thresh
  {
    hide SquaredResidual;
    if thresh > 0.0 { SquareOrder(root, thresh); }
  }

  function MovingPoints(ms: seq<MatchPair>, m: Affine, thresh: real): seq<Point> {
    if ms == [] then []
    else
      var front := MovingPoints(ms[..|ms| - 1], m, thresh);
      if Moves(m, ms[|ms| - 1], thresh) then front + [ms[|ms| - 1].a] else front
  }

  /** The square of the distance from where the camera's motion takes the first keypoint to the second. */
  function Gap(m: Affine, mp: MatchPair): real {
    var dx := m.m0 * mp.a.x + m.m1 * mp.a.y + m.m2 - mp.b.x;
    var dy := m.m3 * mp.a.x + m.m4 * mp.a.y + m.m5 - mp.b.y;
    dx * dx + dy * dy
  }

  function Displacement(sqrt: real -> real, m: Affine, mp: MatchPair): real {
    sqrt(Gap(m, mp))
  }

  lemma ResidualIsGap(m: Affine, mp: MatchPair)
    ensures SquaredResidual(m, mp) == Gap(m, mp) >= 0.0
  {
    var dx := m.m0 * mp.a.x + m.m1 * mp.a.y + m.m2 - mp.b.x;
    var dy := m.m3 * mp.a.x + m.m4 * mp.a.y + m.m5 - mp.b.y;
    SquareNonNegative(dx);
    SquareNonNegative(dy);
  }

  lemma RootSquared(sqrt: real -> real, s: real)
    requires IsSqrt(sqrt) && s >= 0.0
    ensures sqrt(s) >= 0.0 && Square(sqrt(s)) == s
  {
  }

  lemma MovesIsDisplacement(sqrt: real -> real, m: Affine, mp: MatchPair, thresh: real)
    requires IsSqrt(sqrt)
    ensures Moves(m, mp, thresh) <==> Displacement(sqrt, m, mp) >= thresh
  {
    ResidualIsGap(m, mp);
    RootSquared(sqrt, Gap(m, mp));
    hide Moves, SquaredResidual, Square, Gap, IsSqrt;
    MovesIsRootComparison(m, mp, thresh, Displacement(sqrt, m, mp));
  }

  /** idx lists the pairs displaced by at least the threshold, and pts their first keypoints. */
  ghost predicate AreMoving(sqrt: real -> real, ms: seq<MatchPair>, m: Affine, thresh: real,
                            pts: seq<Point>, idx: seq<nat>) {
    && Picks(pts, Firsts(ms), idx)
    && forall k :: 0 <= k < |ms| ==> (k in idx <==> Displacement(sqrt, m, ms[k]) >= thresh)
  }

  function Firsts(ms: seq<MatchPair>): (r: seq<Point>)
    ensures |r| == |ms| && forall k :: 0 <= k < |ms| ==> r[k] == ms[k].a
  {
    seq(|ms|, k requires 0 <= k < |ms| => ms[k].a)
  }

  /** What is clustered: the first keypoint of each pair displaced by at least the threshold, once per
      pair and in their order, and nothing else. */
  lemma {:induction false} MovingPointsMove(sqrt: real -> real, ms: seq<MatchPair>, m: Affine, thresh: real)
    returns (idx: seq<nat>)
    requires IsSqrt(sqrt)
    ensures AreMoving(sqrt, ms, m, thresh, MovingPoints(ms, m, thresh), idx)
  {
    if ms == [] {
      idx := [];
    } else {
      var n := |ms| - 1;
      idx := MovingPointsMove(sqrt, ms[..n], m, thresh);
      MovesIsDisplacement(sqrt, m, ms[n], thresh);
      hide Moves, Displacement, IsSqrt;
      if Moves(m, ms[n], thresh) { idx := idx + [n]; }
    }
  }

  lemma {:induction false} StillPairsDoNotCount(ms: seq<MatchPair>, m: Affine, thresh: real, k: nat)
    requires k < |ms| && !Moves(m, ms[k], thresh)
    ensures MovingPoints(Without(ms, k), m, thresh) == MovingPoints(ms, m, thresh)
  {
    hide Moves, Without;
    WithoutLast(ms, k);
    if k == |ms| - 1 {
    } else {
      StillPairsDoNotCount(ms[..|ms| - 1], m, thresh, k);
    }
  }

  lemma {:induction false} NothingMoves(ms: seq<MatchPair>, m: Affine, thresh: real)
    requires forall k :: 0 <= k < |ms| ==> !Moves(m, ms[k], thresh)
    ensures MovingPoints(ms, m, thresh) == []
  {
    if ms == [] {
    } else {
      NothingMoves(ms[..|ms| - 1], m, thresh);
    }
  }

  /** The blob is the chosen component, that of i: its exact size and its box. */
  ghost predicate Reports(out: MotionBlob, pts: seq<Point>, cell: real, i: nat) {
    && IsChosenComponent(pts, cell, i)
    && out.n >= 0
    && IsExtentOf(Extent(out.n, out.box.x, out.box.y, out.box.x + out.box.w, out.box.y + out.box.h),
                  pts, Component(pts, cell, i), BIG)
  }

  /** What cluster_moving reports. */
  ghost predicate IsMotionBlob(out: MotionBlob, ms: seq<MatchPair>, m: Affine, thresh: real, minPts: int, cell: real) {
    var pts := MovingPoints(ms, m, thresh);
    && (out.ok <==> exists i :: 0 <= i < |pts| && |Component(pts, cell, i)| >= minPts)
    && (if out.ok then exists i :: Reports(out, pts, cell, i) else out == NO_BLOB)
  }

  lemma ExtentIsUnique(d: Extent, e: Extent, pts: seq<Point>, s: set<nat>, big: real)
    requires IsExtentOf(d, pts, s, big) && IsExtentOf(e, pts, s, big)
    ensures d == e
  {
    LowIsUnique(d.x0, e.x0, Xs(pts), s, big);
    LowIsUnique(d.y0, e.y0, Ys(pts), s, big);
    HighIsUnique(d.x1, e.x1, Xs(pts), s, big);
    HighIsUnique(d.y1, e.y1, Ys(pts), s, big);
  }

  lemma LowIsUnique(v: real, w: real, c: seq<real>, s: set<nat>, big: real)
    requires IsLow(v, c, s, big) && IsLow(w, c, s, big)
    ensures v == w
  {
  }

  lemma HighIsUnique(v: real, w: real, c: seq<real>, s: set<nat>, big: real)
    requires IsHigh(v, c, s, big) && IsHigh(w, c, s, big)
    ensures v == w
  {
  }

  lemma BlobIsUnique(a: MotionBlob, b: MotionBlob, ms: seq<MatchPair>, m: Affine, thresh: real, minPts: int, cell: real)
    requires IsMotionBlob(a, ms, m, thresh, minPts, cell) && IsMotionBlob(b, ms, m, thresh, minPts, cell)
    ensures a == b
  {
    hide IsChosenComponent, IsExtentOf, Component, MovingPoints;
    if a.ok {
      var pts := MovingPoints(ms, m, thresh);
      var i :| Reports(a, pts, cell, i);
      var j :| Reports(b, pts, cell, j);
      ChosenIsUnique(pts, cell, i, j);
      ExtentIsUnique(Extent(a.n, a.box.x, a.box.y, a.box.x + a.box.w, a.box.y + a.box.h),
                     Extent(b.n, b.box.x, b.box.y, b.box.x + b.box.w, b.box.y + b.box.h),
                     pts, Component(pts, cell, i), BIG);
    }
  }

  /** A pair displaced by less than the threshold never changes what is reported. */
  lemma StillPairChangesNothing(a: MotionBlob, b: MotionBlob, sqrt: real -> real, ms: seq<MatchPair>, m: Affine,
                                thresh: real, minPts: int, cell: real, k: nat)
    requires IsSqrt(sqrt) && k < |ms| && Displacement(sqrt, m, ms[k]) < thresh
    requires IsMotionBlob(a, ms, m, thresh, minPts, cell)
    requires IsMotionBlob(b, Without(ms, k), m, thresh, minPts, cell)
    ensures a == b
  {
    MovesIsDisplacement(sqrt, m, ms[k], thresh);
    hide Moves, Reports, MovingPoints, Component;
    StillPairsDoNotCount(ms, m, thresh, k);
    BlobIsUnique(a, b, ms, m, thresh, minPts, cell);
  }

  /** When no pair is displaced by the threshold there is no blob. */
  lemma StillPictureHasNoBlob(a: MotionBlob, sqrt: real -> real, ms: seq<MatchPair>, m: Affine, thresh: real,
                              minPts: int, cell: real)
    requires IsSqrt(sqrt) && forall k :: 0 <= k < |ms| ==> Displacement(sqrt, m, ms[k]) < thresh
    requires IsMotionBlob(a, ms, m, thresh, minPts, cell)
    ensures a == NO_BLOB
  {
    hide Moves, Displacement, IsSqrt, MovingPoints, Component;
    forall k | 0 <= k < |ms| ensures !Moves(m, ms[k], thresh) { MovesIsDisplacement(sqrt, m, ms[k], thresh); }
    NothingMoves(ms, m, thresh);
  }

  /** cluster_moving: the reported blob is the largest component of the proximity graph of the
      moving points (of several, the one with the smallest root), with its exact size and its box; it
      is reported exactly when some component has minPts members. */
  method ClusterMoving(ms: seq<MatchPair>, m: Affine, thresh: real, minPts: int, cell: real) returns (out: MotionBlob)
    ensures IsMotionBlob(out, ms, m, thresh, minPts, cell)
  {
    var pts: seq<Point> := [];
    for k := 0 to |ms|
      invariant pts == MovingPoints(ms[..k], m, thresh)
    {
      if Moves(m, ms[k], thresh) { pts := pts + [ms[k].a]; }
      assert ms[..k + 1][..k] == ms[..k];
    }
    assert ms[..|ms|] == ms;
    out := NO_BLOB;
    var blob := LargestCluster(pts, minPts, cell, BIG);
    if blob.Some? {
      var e := blob.value;
      out := MotionBlob(Box(e.x0, e.y0, e.x1 - e.x0, e.y1 - e.y0), e.n, true);
      assert Extent(out.n, out.box.x, out.box.y, out.box.x + out.box.w, out.box.y + out.box.h) == e;
      ghost var i :| IsChosenComponent(pts, cell, i) && IsExtentOf(e, pts, Component(pts, cell, i), BIG);
      assert Reports(out, pts, cell, i);
    }
  }
}
