/** Points, the proximity graph on them and its connected components: what the clustering
    of moving keypoints means, independent of how it is computed. */
module Proximity {
  datatype Point = Point(x: real, y: real)

  function Abs(r: real): real {
    if r < 0.0 then -r else r
  }

  /** Both coordinates differ by at most one cell. */
  predicate Near(p: Point, q: Point, cell: real) {
    Abs(p.x - q.x) <= cell && Abs(p.y - q.y) <= cell
  }

  /** q lies in the square of side two cells around p. */
  lemma NearIsSquare(p: Point, q: Point, cell: real)
    ensures Near(p, q, cell) <==> p.x - cell <= q.x <= p.x + cell && p.y - cell <= q.y <= p.y + cell
  {
  }

  /** Indices of pts, each near the next one. */
  predicate Chain(pts: seq<Point>, cell: real, path: seq<nat>) {
    && |path| > 0
    && (forall k :: 0 <= k < |path| ==> path[k] < |pts|)
    && forall k :: 0 <= k < |path| - 1 ==> Near(pts[path[k]], pts[path[k + 1]], cell)
  }

  ghost predicate Linked(pts: seq<Point>, cell: real, i: nat, j: nat) {
    exists path :: Chain(pts, cell, path) && path[0] == i && path[|path| - 1] == j
  }

  lemma LinkedSelf(pts: seq<Point>, cell: real, i: nat)
    requires i < |pts|
    ensures Linked(pts, cell, i, i)
  {
    assert Chain(pts, cell, [i]);
  }

  lemma LinkedStep(pts: seq<Point>, cell: real, i: nat, j: nat)
    requires i < |pts| && j < |pts| && Near(pts[i], pts[j], cell)
    ensures Linked(pts, cell, i, j)
  {
    assert Chain(pts, cell, [i, j]);
  }

  lemma LinkedTrans(pts: seq<Point>, cell: real, i: nat, j: nat, k: nat)
    requires Linked(pts, cell, i, j) && Linked(pts, cell, j, k)
    ensures Linked(pts, cell, i, k)
  {
    var p :| Chain(pts, cell, p) && p[0] == i && p[|p| - 1] == j;
    var q :| Chain(pts, cell, q) && q[0] == j && q[|q| - 1] == k;
    var r := p + q[1..];
    forall m | 0 <= m < |r| - 1 ensures Near(pts[r[m]], pts[r[m + 1]], cell) {
      if m >= |p| - 1 {
        assert r[m] == q[m - (|p| - 1)] && r[m + 1] == q[m + 1 - (|p| - 1)];
      }
    }
    assert Chain(pts, cell, r);
  }

  lemma LinkedSym(pts: seq<Point>, cell: real, i: nat, j: nat)
    requires Linked(pts, cell, i, j)
    ensures Linked(pts, cell, j, i)
  {
    var p :| Chain(pts, cell, p) && p[0] == i && p[|p| - 1] == j;
    var r := seq(|p|, m requires 0 <= m < |p| => p[|p| - 1 - m]);
    forall m | 0 <= m < |r| - 1 ensures Near(pts[r[m]], pts[r[m + 1]], cell) {
      assert Near(pts[p[|p| - 2 - m]], pts[p[|p| - 2 - m + 1]], cell);
    }
    assert Chain(pts, cell, r);
  }

  /** A labelling that agrees on near points agrees along every chain. */
  lemma {:induction false} LabelsAlongChain(pts: seq<Point>, cell: real, path: seq<nat>, rep: seq<nat>)
    requires Chain(pts, cell, path) && |rep| == |pts|
    requires forall i, j :: 0 <= i < |pts| && 0 <= j < |pts| && Near(pts[i], pts[j], cell) ==> rep[i] == rep[j]
    ensures rep[path[0]] == rep[path[|path| - 1]]
  {
    if |path| <= 1 {
    } else {
      var front := path[..|path| - 1];
      forall k | 0 <= k < |front| - 1 ensures Near(pts[front[k]], pts[front[k + 1]], cell) {
        assert Near(pts[path[k]], pts[path[k + 1]], cell);
      }
      LabelsAlongChain(pts, cell, front, rep);
      assert Near(pts[path[|path| - 2]], pts[path[|path| - 2 + 1]], cell);
    }
  }

  /** Two labels are equal exactly when a chain connects the points. */
  ghost predicate IsComponentMap(pts: seq<Point>, cell: real, rep: seq<nat>) {
    && |rep| == |pts|
    && forall i, j :: 0 <= i < |pts| && 0 <= j < |pts| ==> (rep[i] == rep[j] <==> Linked(pts, cell, i, j))
  }

  lemma ComponentsFromLabels(pts: seq<Point>, cell: real, rep: seq<nat>)
    requires |rep| == |pts|
    requires forall i, j :: 0 <= i < |pts| && 0 <= j < |pts| && Near(pts[i], pts[j], cell) ==> rep[i] == rep[j]
    requires forall i, j :: 0 <= i < |pts| && 0 <= j < |pts| && rep[i] == rep[j] ==> Linked(pts, cell, i, j)
    ensures IsComponentMap(pts, cell, rep)
  {
    forall i, j | 0 <= i < |pts| && 0 <= j < |pts| && Linked(pts, cell, i, j) ensures rep[i] == rep[j] {
      var p :| Chain(pts, cell, p) && p[0] == i && p[|p| - 1] == j;
      LabelsAlongChain(pts, cell, p, rep);
    }
  }

  // ---------------------------------------------------------------- sizes and boxes

  /** The members of the component of i. */
  ghost function Component(pts: seq<Point>, cell: real, i: nat): set<nat> {
    set j: nat | j < |pts| && Linked(pts, cell, i, j)
  }

  /** The points labelled r among the first k. */
  function Labelled(rep: seq<nat>, r: nat, k: nat): set<nat>
    requires k <= |rep|
  {
    set j: nat | j < k && rep[j] == r
  }

  lemma LabelledIsComponent(pts: seq<Point>, cell: real, rep: seq<nat>, i: nat)
    requires IsComponentMap(pts, cell, rep) && i < |pts|
    ensures Labelled(rep, rep[i], |rep|) == Component(pts, cell, i)
  {
  }

  lemma LabelledNext(rep: seq<nat>, r: nat, k: nat)
    requires k < |rep|
    ensures k !in Labelled(rep, r, k)
    ensures Labelled(rep, r, k + 1) == Labelled(rep, r, k) + (if rep[k] == r then {k} else {})
  {
  }

  lemma LabelledStep(rep: seq<nat>, r: nat, k: nat)
    requires k < |rep|
    ensures |Labelled(rep, r, k + 1)| == |Labelled(rep, r, k)| + (if rep[k] == r then 1 else 0)
  {
    LabelledNext(rep, r, k);
    hide Labelled;
  }

  lemma {:induction false} SizeBelow(s: set<nat>, n: nat)
    requires forall x :: x in s ==> x < n
    ensures |s| <= n
  {
    if n == 0 {
      assert s == {};
    } else {
      SizeBelow(s - {n - 1}, n - 1);
    }
  }
}
