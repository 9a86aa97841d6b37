/** What the persistence gate and the detection gate share: distances, processing order,
    nearest-track search and the moving lock. */
module Association {
  import opened Reals
  import P = Proximity

  type Point = P.Point

  function Dist2(a: Point, b: Point): real {
    Square(a.x - b.x) + Square(a.y - b.y)
  }

  /** The squared limit that stands for `distance < limit`. */
  function Bound(limit: real): real {
    if limit > 0.0 then Square(limit) else 0.0
  }

  lemma BoundPositive(limit: real)
    requires limit > 0.0
    ensures Bound(limit) > 0.0
  {
    assert Square(0.0) == 0.0;
    hide Square;
    SquareOrder(0.0, limit);
  }

  predicate Within(limit: real, a: Point, b: Point) {
    Dist2(a, b) < Bound(limit)
  }

  /** Comparing squares is comparing distances: r is hypot(dx, dy). */
  lemma WithinIsCloser(limit: real, a: Point, b: Point, r: real)
    requires r >= 0.0 && r * r == (b.x - a.x) * (b.x - a.x) + (b.y - a.y) * (b.y - a.y)
    ensures Within(limit, a, b) <==> r < limit
  {
    assert Square(r) == Dist2(a, b);
    hide Dist2;
    if limit > 0.0 { SquareOrder(r, limit); } else { assert Square(r) >= 0.0 by { ProductNonNegative(r, r); } }
  }

  // ---------------------------------------------------------------- processing order

  /** Different indices below n, as many as there are of them. */
  predicate IsArrangement(order: seq<nat>, n: nat) {
    && |order| == n
    && (forall i :: 0 <= i < |order| ==> order[i] < n)
    && forall i, j :: 0 <= i < j < |order| ==> order[i] != order[j]
  }

  predicate Falling(order: seq<nat>, keys: seq<real>)
    requires forall i :: 0 <= i < |order| ==> order[i] < |keys|
  {
    forall i, j :: 0 <= i < j < |order| ==> keys[order[i]] >= keys[order[j]]
  }

  /** Any result of sorting the indices by falling confidence: ties in either order. */
  predicate IsOrder(order: seq<nat>, keys: seq<real>) {
    IsArrangement(order, |keys|) && Falling(order, keys)
  }

  function Insert(o: seq<nat>, at: nat, v: nat): (r: seq<nat>)
    requires at <= |o|
    ensures |r| == |o| + 1
    ensures forall i :: 0 <= i < |r| ==> r[i] == if i < at then o[i] else if i == at then v else o[i - 1]
  {
    o[..at] + [v] + o[at..]
  }

  lemma {:induction false} OrderExists(keys: seq<real>) returns (order: seq<nat>)
    ensures IsOrder(order, keys)
  {
    if keys == [] {
      order := [];
    } else {
      var n := |keys| - 1;
      var o := OrderExists(keys[..n]);
      var at := 0;
      while at < n && keys[o[at]] >= keys[n]
        invariant at <= n
        invariant forall i :: 0 <= i < at ==> keys[o[i]] >= keys[n]
      {
        at := at + 1;
      }
      order := Insert(o, at, n);
      InsertFalls(keys, o, at, order);
    }
  }

  lemma InsertArranges(o: seq<nat>, at: nat, n: nat)
    requires IsArrangement(o, n) && at <= n
    ensures IsArrangement(Insert(o, at, n), n + 1)
  {
    var r := Insert(o, at, n);
    forall i, j | 0 <= i < j < |r| ensures r[i] != r[j] {
      var a, b := if i < at then i else i - 1, if j < at then j else j - 1;
      if i != at && j != at { assert o[a] != o[b]; } else if i == at { assert o[b] < n; } else { assert o[a] < n; }
    }
    forall i | 0 <= i < |r| ensures r[i] < n + 1 {
      if i != at { assert o[if i < at then i else i - 1] < n; }
    }
  }

  lemma InsertFalls(keys: seq<real>, o: seq<nat>, at: nat, order: seq<nat>)
    requires keys != [] && IsOrder(o, keys[..|keys| - 1]) && at <= |o| && order == Insert(o, at, |keys| - 1)
    requires forall i :: 0 <= i < at ==> keys[o[i]] >= keys[|keys| - 1]
    requires at < |o| ==> keys[o[at]] < keys[|keys| - 1]
    ensures IsOrder(order, keys)
  {
    var n := |keys| - 1;
    InsertArranges(o, at, n);
    hide Insert;
    forall i, j | 0 <= i < j < |order| ensures keys[order[i]] >= keys[order[j]] {
      var a, b := if i < at then i else i - 1, if j < at then j else j - 1;
      if i != at && j != at {
        assert keys[..n][o[a]] >= keys[..n][o[b]];
      } else if i == at && at < b {
        assert keys[..n][o[at]] >= keys[..n][o[b]];
      }
    }
  }

  function Elements(s: seq<nat>): set<nat> {
    set v | v in s
  }

  lemma OneMore(s: seq<nat>, v: nat)
    requires v !in s
    ensures Elements(s + [v]) == Elements(s) + {v} && |Elements(s + [v])| == |Elements(s)| + 1
  {
  }

  lemma {:induction false} ArrangementSize(order: seq<nat>, n: nat, k: nat)
    requires IsArrangement(order, n) && k <= n
    ensures |Elements(order[..k])| == k
  {
    if k == 0 {
    } else {
      ArrangementSize(order, n, k - 1);
      assert order[..k] == order[..k - 1] + [order[k - 1]];
      assert order[k - 1] !in order[..k - 1];
      hide Elements, IsArrangement;
      OneMore(order[..k - 1], order[k - 1]);
    }
  }

  /** Value v stands at exactly one place. */
  predicate Once(order: seq<nat>, v: nat) {
    v in order && forall i, j :: 0 <= i < j < |order| ==> !(order[i] == v && order[j] == v)
  }

  /** An arrangement names every index below n exactly once. */
  lemma EachIndexOnce(order: seq<nat>, n: nat, v: nat)
    requires IsArrangement(order, n) && v < n
    ensures Once(order, v)
  {
    ArrangementSize(order, n, n);
    assert order[..n] == order;
    if v !in order {
      P.SizeBelow(Elements(order) + {v}, n);
      assert false;
    }
  }

  // ---------------------------------------------------------------- nearest track

  /** Scan of the first k tracks: the first nearest free one strictly inside the bound. */
  function Nearest(bound: real, pts: seq<Point>, taken: seq<bool>, d: Point, k: nat): (r: (int, real))
    requires k <= |pts| == |taken|
    ensures -1 <= r.0 < k
  {
    if k == 0 then (-1, bound)
    else
      var (b, v) := Nearest(bound, pts, taken, d, k - 1);
      var u := Dist2(pts[k - 1], d);
      if !taken[k - 1] && u < v then (k - 1, u) else (b, v)
  }

  predicate IsNearest(bound: real, pts: seq<Point>, taken: seq<bool>, d: Point, k: nat, b: int)
    requires k <= |pts| == |taken|
  {
    && -1 <= b < k
    && (b == -1 ==> forall j :: 0 <= j < k && !taken[j] ==> Dist2(pts[j], d) >= bound)
    && (b >= 0 ==>
          && !taken[b] && Dist2(pts[b], d) < bound
          && forall j :: 0 <= j < k && !taken[j] ==>
                           && Dist2(pts[b], d) <= Dist2(pts[j], d)
                           && (j < b ==> Dist2(pts[b], d) < Dist2(pts[j], d)))
  }

  lemma {:induction false} NearestIs(bound: real, pts: seq<Point>, taken: seq<bool>, d: Point, k: nat)
    requires k <= |pts| == |taken|
    ensures IsNearest(bound, pts, taken, d, k, Nearest(bound, pts, taken, d, k).0)
    ensures var (b, v) := Nearest(bound, pts, taken, d, k); v == if b < 0 then bound else Dist2(pts[b], d)
  {
    hide Dist2;
    if k == 0 {
    } else {
      NearestIs(bound, pts, taken, d, k - 1);
    }
  }
}
