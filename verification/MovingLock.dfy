/** The locked scan of both gates. Each detection inside the current bound moves the lock onto itself
    at once and shrinks the bound to the length of that hop. */
module MovingLock {
  import opened Reals
  import opened Association
  import opened Sequences

  /** The locked scan: index of the last accepted detection, the bound left, and the lock point. */
  datatype Lock = Lock(best: int, bound: real, at: Point)

  function Follow(bound: real, at: Point, pts: seq<Point>, k: nat): (r: Lock)
    requires k <= |pts|
    ensures -1 <= r.best < k
  {
    if k == 0 then Lock(-1, bound, at)
    else
      var l := Follow(bound, at, pts, k - 1);
      var u := Dist2(l.at, pts[k - 1]);
      if u < l.bound then Lock(k - 1, u, pts[k - 1]) else l
  }

  /** The scan finds nothing exactly when no detection is inside the bound of the lock; otherwise the
      lock moves onto the detection it returns. */
  lemma {:induction false} FollowFinds(bound: real, at: Point, pts: seq<Point>, k: nat)
    requires k <= |pts|
    ensures var l := Follow(bound, at, pts, k);
            && (l.best < 0 <==> forall j :: 0 <= j < k ==> Dist2(at, pts[j]) >= bound)
            && (l.best < 0 ==> l.at == at && l.bound == bound)
            && (l.best >= 0 ==> l.at == pts[l.best] && l.bound <= bound)
  {
    hide Dist2;
    if k == 0 {
    } else {
      FollowFinds(bound, at, pts, k - 1);
    }
  }

  /** No point is within the limit. */
  predicate Miss(limit: real, at: Point, pts: seq<Point>) {
    forall j :: 0 <= j < |pts| ==> !Within(limit, at, pts[j])
  }

  /** A whole scan misses exactly when no point is within the limit, and then leaves the lock alone. */
  lemma FollowMisses(limit: real, at: Point, pts: seq<Point>)
    ensures var l := Follow(Bound(limit), at, pts, |pts|);
            && (l.best < 0 <==> Miss(limit, at, pts))
            && l.at == if l.best < 0 then at else pts[l.best]
  {
    FollowFinds(Bound(limit), at, pts, |pts|);
    hide Follow, Bound, Dist2;
  }

  /** Once nothing later is closer to the lock than the last hop, the lock has settled, and only then. */
  lemma {:induction false} FollowRests(bound: real, at: Point, pts: seq<Point>, k: nat, n: nat)
    requires k <= n <= |pts|
    ensures Follow(bound, at, pts, n) == Follow(bound, at, pts, k)
            <==> forall j :: k <= j < n ==> Dist2(Follow(bound, at, pts, k).at, pts[j]) >= Follow(bound, at, pts, k).bound
    ensures Follow(bound, at, pts, n) == Follow(bound, at, pts, k) || k <= Follow(bound, at, pts, n).best
    ensures Follow(bound, at, pts, n).bound <= Follow(bound, at, pts, k).bound
  {
    hide Dist2;
    if k == n {
    } else {
      FollowRests(bound, at, pts, k, n - 1);
      FollowIndex(bound, at, pts, k);
    }
  }

  lemma FollowIndex(bound: real, at: Point, pts: seq<Point>, k: nat)
    requires k <= |pts|
    ensures Follow(bound, at, pts, k).best < k
  {
  }

  /** Detection r is returned exactly when the lock, where the earlier detections left it, accepts r
      and no later detection is closer to r than that hop was long. */
  lemma FollowReturns(bound: real, at: Point, pts: seq<Point>, r: nat)
    requires r < |pts|
    ensures var l := Follow(bound, at, pts, r);
            var hop := Dist2(l.at, pts[r]);
            Follow(bound, at, pts, |pts|).best == r
            <==> hop < l.bound && forall j :: r < j < |pts| ==> Dist2(pts[r], pts[j]) >= hop
  {
    hide Dist2;
    FollowRests(bound, at, pts, r + 1, |pts|);
  }

  /** Nothing before f is inside the bound of the lock, and f is. */
  predicate IsFirstInside(bound: real, at: Point, pts: seq<Point>, f: nat) {
    && f < |pts| && Dist2(at, pts[f]) < bound
    && forall j :: 0 <= j < f ==> Dist2(at, pts[j]) >= bound
  }

  /** No detection after f is closer to it than the old lock is. */
  predicate NothingCloser(at: Point, pts: seq<Point>, f: nat)
    requires f < |pts|
  {
    forall j :: f < j < |pts| ==> Dist2(pts[f], pts[j]) >= Dist2(at, pts[f])
  }

  /** The first detection inside the limit is the one returned exactly when no later one is closer to
      it than the old lock is. */
  lemma FirstIsKept(bound: real, at: Point, pts: seq<Point>, f: nat)
    requires IsFirstInside(bound, at, pts, f)
    ensures Follow(bound, at, pts, |pts|).best == f <==> NothingCloser(at, pts, f)
  {
    hide Dist2;
    FollowFinds(bound, at, pts, f);
    FollowReturns(bound, at, pts, f);
  }

  // ---------------------------------------------------------------- when the nearest one is returned

  predicate IsNearestTo(at: Point, pts: seq<Point>, n: nat) {
    n < |pts| && forall j :: 0 <= j < |pts| ==> Dist2(at, pts[n]) <= Dist2(at, pts[j])
  }

  /** The branch of detection n is taken, and that of no later one. */
  predicate SettlesOn(bound: real, at: Point, pts: seq<Point>, n: nat)
    requires n < |pts|
  {
    var l := Follow(bound, at, pts, n);
    Dist2(l.at, pts[n]) < l.bound && forall j :: n < j < |pts| ==> Dist2(pts[n], pts[j]) >= Dist2(l.at, pts[n])
  }

  /** For every input: the detection returned is a nearest one exactly when the scan settles on one. */
  lemma ReturnsNearest(bound: real, at: Point, pts: seq<Point>)
    ensures var b := Follow(bound, at, pts, |pts|).best;
            (b >= 0 && IsNearestTo(at, pts, b)) <==> exists n :: IsNearestTo(at, pts, n) && SettlesOn(bound, at, pts, n)
  {
    hide Dist2, IsNearestTo, Follow;
    forall n: nat | n < |pts| ensures SettlesOn(bound, at, pts, n) <==> Follow(bound, at, pts, |pts|).best == n {
      FollowReturns(bound, at, pts, n);
    }
    FollowIndex(bound, at, pts, |pts|);
    InRange(at, pts);
  }

  lemma InRange(at: Point, pts: seq<Point>)
    ensures forall n: nat :: IsNearestTo(at, pts, n) ==> n < |pts|
  {
  }

  /** The nearest detection is inside the bound and precedes every other one inside it. */
  predicate NearestLeads(bound: real, at: Point, pts: seq<Point>, n: nat) {
    && IsNearestTo(at, pts, n) && Dist2(at, pts[n]) < bound
    && forall j :: 0 <= j < |pts| && Dist2(at, pts[j]) < bound ==> n <= j
  }

  /** When the nearest detection comes before every other one inside the bound, it is returned exactly
      when no later detection is closer to it than the old lock is. */
  lemma NearestComesFirst(bound: real, at: Point, pts: seq<Point>, n: nat)
    requires NearestLeads(bound, at, pts, n)
    ensures Follow(bound, at, pts, |pts|).best == n <==> NothingCloser(at, pts, n)
  {
    hide Dist2;
    FirstIsKept(bound, at, pts, n);
  }

  /** Two detections, p the nearer: both list orders return p exactly when q is no closer to p than the
      lock is, and a q inside the bound is closer to p than to the lock. */
  lemma TwoInEitherOrder(bound: real, at: Point, p: Point, q: Point)
    requires Dist2(at, p) < Dist2(at, q) && Dist2(at, p) < bound
    ensures (Follow(bound, at, [p, q], 2).at == p && Follow(bound, at, [q, p], 2).at == p)
            <==> Dist2(p, q) >= Dist2(at, p) && (Dist2(at, q) < bound ==> Dist2(q, p) < Dist2(at, q))
  {
    Dist2Symmetric(p, q);
    hide Dist2;
    FollowBoth(bound, at, p, q);
    FollowBoth(bound, at, q, p);
    assert p != q;
  }

  lemma FollowBoth(bound: real, at: Point, p: Point, q: Point)
    ensures var l := if Dist2(at, p) < bound then Lock(0, Dist2(at, p), p) else Lock(-1, bound, at);
            Follow(bound, at, [p, q], 1) == l
            && Follow(bound, at, [p, q], 2) == if Dist2(l.at, q) < l.bound then Lock(1, Dist2(l.at, q), q) else l
  {
    hide Dist2;
    assert Follow(bound, at, [p, q], 0) == Lock(-1, bound, at);
  }

  lemma Dist2Symmetric(p: Point, q: Point)
    ensures Dist2(p, q) == Dist2(q, p)
  {
    assert Square(p.x - q.x) == Square(q.x - p.x) && Square(p.y - q.y) == Square(q.y - p.y);
  }

  // ---------------------------------------------------------------- the trail of the lock

  predicate Below(t: seq<nat>, n: nat) {
    forall k :: 0 <= k < |t| ==> t[k] < n
  }

  /** Where the lock is after i hops of the trail. */
  function Stage(at: Point, pts: seq<Point>, t: seq<nat>, i: nat): Point
    requires i <= |t| && Below(t, |pts|)
  {
    if i == 0 then at else pts[t[i - 1]]
  }

  /** And how far it reaches from there: the bound at first, then the length of the last hop. */
  function Reach(bound: real, at: Point, pts: seq<Point>, t: seq<nat>, i: nat): real
    requires i <= |t| && Below(t, |pts|)
  {
    if i == 0 then bound else Dist2(Stage(at, pts, t, i - 1), Stage(at, pts, t, i))
  }

  /** Hop i is inside the reach of the lock before it. */
  predicate Shrinks(bound: real, at: Point, pts: seq<Point>, t: seq<nat>, i: nat)
    requires 0 < i <= |t| && Below(t, |pts|)
  {
    Reach(bound, at, pts, t, i) < Reach(bound, at, pts, t, i - 1)
  }

  /** If detection j comes after hop i and before the next, it is out of the lock's reach. */
  predicate PassedOver(bound: real, at: Point, pts: seq<Point>, t: seq<nat>, i: nat, j: nat)
    requires i <= |t| && j < |pts| && Below(t, |pts|)
  {
    (i > 0 ==> t[i - 1] < j) && (i < |t| ==> j < t[i])
    ==> Dist2(Stage(at, pts, t, i), pts[j]) >= Reach(bound, at, pts, t, i)
  }

  /** A trail through the first n detections: its detections come in list order, each hop is shorter
      than the one before and the first inside the bound, and every other detection was out of reach. */
  predicate IsTrail(bound: real, at: Point, pts: seq<Point>, t: seq<nat>, n: nat)
    requires n <= |pts|
  {
    && Increasing(t) && Below(t, n) && Below(t, |pts|)
    && (forall i :: 0 < i <= |t| ==> Shrinks(bound, at, pts, t, i))
    && forall i, j :: 0 <= i <= |t| && 0 <= j < n ==> PassedOver(bound, at, pts, t, i, j)
  }

  lemma SamePrefix(bound: real, at: Point, pts: seq<Point>, t: seq<nat>, u: seq<nat>, i: nat)
    requires i <= |t| <= |u| && u[..|t|] == t && Below(t, |pts|) && Below(u, |pts|)
    ensures Stage(at, pts, u, i) == Stage(at, pts, t, i) && Reach(bound, at, pts, u, i) == Reach(bound, at, pts, t, i)
    ensures i > 0 ==> u[i - 1] == t[i - 1]
    ensures i < |t| ==> u[i] == t[i]
  {
    hide Dist2;
    assert forall k :: 0 <= k < |t| ==> u[k] == t[k] by { assert forall k :: 0 <= k < |t| ==> u[..|t|][k] == u[k]; }
  }

  function Trail(bound: real, at: Point, pts: seq<Point>, k: nat): seq<nat>
    requires k <= |pts|
  {
    if k == 0 then []
    else
      var l := Follow(bound, at, pts, k - 1);
      var t := Trail(bound, at, pts, k - 1);
      if Dist2(l.at, pts[k - 1]) < l.bound then t + [k - 1] else t
  }

  lemma TrailStart(bound: real, at: Point, pts: seq<Point>)
    ensures IsTrail(bound, at, pts, [], 0)
  {
  }

  lemma GrownShrinks(bound: real, at: Point, pts: seq<Point>, t: seq<nat>, k: nat, i: nat)
    requires k < |pts| && IsTrail(bound, at, pts, t, k) && 0 < i <= |t| + 1
    requires Dist2(Stage(at, pts, t, |t|), pts[k]) < Reach(bound, at, pts, t, |t|)
    ensures Below(t + [k], |pts|) && Shrinks(bound, at, pts, t + [k], i)
  {
    hide Dist2;
    var u := t + [k];
    SamePrefix(bound, at, pts, t, u, i - 1);
    if i <= |t| {
      SamePrefix(bound, at, pts, t, u, i);
      assert Shrinks(bound, at, pts, t, i);
    }
  }

  lemma GrownPasses(bound: real, at: Point, pts: seq<Point>, t: seq<nat>, k: nat, i: nat, j: nat)
    requires k < |pts| && IsTrail(bound, at, pts, t, k) && i <= |t| + 1 && j < k + 1
    ensures Below(t + [k], |pts|) && PassedOver(bound, at, pts, t + [k], i, j)
  {
    hide Dist2;
    if i <= |t| {
      SamePrefix(bound, at, pts, t, t + [k], i);
      if j < k { assert PassedOver(bound, at, pts, t, i, j); }
    }
  }

  lemma GrownEnd(bound: real, at: Point, pts: seq<Point>, t: seq<nat>, k: nat)
    requires k < |pts| && IsTrail(bound, at, pts, t, k)
    ensures Below(t + [k], |pts|) && Below(t + [k], k + 1) && Increasing(t + [k])
    ensures Stage(at, pts, t + [k], |t| + 1) == pts[k]
    ensures Reach(bound, at, pts, t + [k], |t| + 1) == Dist2(Stage(at, pts, t, |t|), pts[k])
  {
    hide Dist2, PassedOver, Shrinks;
    SamePrefix(bound, at, pts, t, t + [k], |t|);
  }

  /** A detection in reach extends the trail, and only to this one. */
  lemma TrailGrows(bound: real, at: Point, pts: seq<Point>, t: seq<nat>, k: nat)
    requires k < |pts| && IsTrail(bound, at, pts, t, k)
    requires Dist2(Stage(at, pts, t, |t|), pts[k]) < Reach(bound, at, pts, t, |t|)
    ensures IsTrail(bound, at, pts, t + [k], k + 1)
    ensures Stage(at, pts, t + [k], |t| + 1) == pts[k]
    ensures Reach(bound, at, pts, t + [k], |t| + 1) == Dist2(Stage(at, pts, t, |t|), pts[k])
  {
    GrownEnd(bound, at, pts, t, k);
    var u := t + [k];
    forall i | 0 < i <= |u| ensures Shrinks(bound, at, pts, u, i) { GrownShrinks(bound, at, pts, t, k, i); }
    forall i, j | 0 <= i <= |u| && 0 <= j < k + 1 ensures PassedOver(bound, at, pts, u, i, j) {
      GrownPasses(bound, at, pts, t, k, i, j);
    }
    hide Dist2, Stage, Reach, Shrinks, PassedOver;
  }

  /** A detection out of reach leaves it as it is. */
  lemma TrailRests(bound: real, at: Point, pts: seq<Point>, t: seq<nat>, k: nat)
    requires k < |pts| && IsTrail(bound, at, pts, t, k)
    requires Dist2(Stage(at, pts, t, |t|), pts[k]) >= Reach(bound, at, pts, t, |t|)
    ensures IsTrail(bound, at, pts, t, k + 1)
  {
    hide Dist2, Stage, Reach;
    forall i, j | 0 <= i <= |t| && 0 <= j < k + 1 ensures PassedOver(bound, at, pts, t, i, j) {
    }
  }

  /** A scan is the walk along a trail: it returns the trail's last detection. */
  lemma {:induction false} FollowIsTrail(bound: real, at: Point, pts: seq<Point>, k: nat)
    requires k <= |pts|
    ensures var t := Trail(bound, at, pts, k);
            && IsTrail(bound, at, pts, t, k)
            && Follow(bound, at, pts, k)
               == Lock(if t == [] then -1 else t[|t| - 1], Reach(bound, at, pts, t, |t|), Stage(at, pts, t, |t|))
  {
    hide Dist2, IsTrail;
    if k == 0 {
      TrailStart(bound, at, pts);
    } else {
      FollowIsTrail(bound, at, pts, k - 1);
      var l, t := Follow(bound, at, pts, k - 1), Trail(bound, at, pts, k - 1);
      TrailIsBelow(bound, at, pts, t, k - 1);
      if Dist2(l.at, pts[k - 1]) < l.bound {
        TrailGrows(bound, at, pts, t, k - 1);
      } else {
        TrailRests(bound, at, pts, t, k - 1);
      }
    }
  }

  lemma TrailIsBelow(bound: real, at: Point, pts: seq<Point>, t: seq<nat>, n: nat)
    requires n <= |pts| && IsTrail(bound, at, pts, t, n)
    ensures Below(t, n) && Below(t, |pts|)
  {
  }

  lemma TrailOfNone(bound: real, at: Point, pts: seq<Point>, t: seq<nat>)
    requires IsTrail(bound, at, pts, t, 0)
    ensures t == []
  {
    if t != [] { NothingBelowZero(t); }
  }

  lemma NothingBelowZero(t: seq<nat>)
    requires t != []
    ensures !Below(t, 0)
  {
    assert t[0] >= 0;
  }

  /** Taking the last of k + 1 detections away from a trail. */
  lemma TrailDrops(bound: real, at: Point, pts: seq<Point>, t: seq<nat>, k: nat)
    requires k < |pts| && IsTrail(bound, at, pts, t, k + 1) && t != [] && t[|t| - 1] == k
    ensures IsTrail(bound, at, pts, t[..|t| - 1], k)
    ensures Dist2(Stage(at, pts, t[..|t| - 1], |t| - 1), pts[k]) < Reach(bound, at, pts, t[..|t| - 1], |t| - 1)
  {
    hide Dist2;
    var front := t[..|t| - 1];
    SamePrefix(bound, at, pts, front, t, |front|);
    assert Shrinks(bound, at, pts, t, |t|);
    forall i | 0 < i <= |front| ensures Shrinks(bound, at, pts, front, i) {
      SamePrefix(bound, at, pts, front, t, i);
      SamePrefix(bound, at, pts, front, t, i - 1);
      assert Shrinks(bound, at, pts, t, i);
    }
    forall i, j | 0 <= i <= |front| && 0 <= j < k ensures PassedOver(bound, at, pts, front, i, j) {
      SamePrefix(bound, at, pts, front, t, i);
      assert PassedOver(bound, at, pts, t, i, j);
    }
  }

  lemma TrailKeeps(bound: real, at: Point, pts: seq<Point>, t: seq<nat>, k: nat)
    requires k < |pts| && IsTrail(bound, at, pts, t, k + 1) && (t == [] || t[|t| - 1] != k)
    ensures IsTrail(bound, at, pts, t, k)
    ensures Dist2(Stage(at, pts, t, |t|), pts[k]) >= Reach(bound, at, pts, t, |t|)
  {
    hide Dist2, Stage, Reach;
    assert PassedOver(bound, at, pts, t, |t|, k);
    forall i | 0 <= i < |t| ensures t[i] < k {
      if i < |t| - 1 { assert t[i] < t[|t| - 1]; }
    }
  }

  /** There is only one trail, so its shape decides the result. */
  lemma {:induction false} TrailIsUnique(bound: real, at: Point, pts: seq<Point>, t: seq<nat>, k: nat)
    requires k <= |pts| && IsTrail(bound, at, pts, t, k)
    ensures t == Trail(bound, at, pts, k)
  {
    hide Dist2, IsTrail, Stage, Reach;
    TrailIsBelow(bound, at, pts, t, k);
    if k == 0 {
      TrailOfNone(bound, at, pts, t);
    } else {
      FollowIsTrail(bound, at, pts, k - 1);
      if t != [] && t[|t| - 1] == k - 1 {
        TrailDrops(bound, at, pts, t, k - 1);
        TrailIsUnique(bound, at, pts, t[..|t| - 1], k - 1);
      } else {
        TrailKeeps(bound, at, pts, t, k - 1);
        TrailIsUnique(bound, at, pts, t, k - 1);
      }
    }
  }

  /** The detection r is the end of the lock's trail. */
  ghost predicate TrailEndsAt(bound: real, at: Point, pts: seq<Point>, r: nat) {
    exists t :: IsTrail(bound, at, pts, t, |pts|) && t != [] && t[|t| - 1] == r
  }

  lemma ReturnsEndOfTrail(bound: real, at: Point, pts: seq<Point>, r: nat)
    ensures Follow(bound, at, pts, |pts|).best == r <==> TrailEndsAt(bound, at, pts, r)
  {
    FollowIsTrail(bound, at, pts, |pts|);
    hide Dist2, IsTrail, Follow, Trail;
    forall t | IsTrail(bound, at, pts, t, |pts|) ensures t == Trail(bound, at, pts, |pts|) {
      TrailIsUnique(bound, at, pts, t, |pts|);
    }
  }

  /** What a locked scan returning r means for the old lock at `at`. */
  ghost predicate IsLockResult(bound: real, at: Point, pts: seq<Point>, r: nat) {
    && r < |pts| && TrailEndsAt(bound, at, pts, r)
    && (forall f: nat :: IsFirstInside(bound, at, pts, f) ==> (r == f <==> NothingCloser(at, pts, f)))
    && (forall n: nat :: NearestLeads(bound, at, pts, n) ==> (r == n <==> NothingCloser(at, pts, n)))
    && (IsNearestTo(at, pts, r) <==> exists n :: IsNearestTo(at, pts, n) && SettlesOn(bound, at, pts, n))
  }

  lemma FollowIsLockResult(bound: real, at: Point, pts: seq<Point>)
    ensures var r := Follow(bound, at, pts, |pts|).best; r >= 0 ==> IsLockResult(bound, at, pts, r)
  {
    hide Dist2, Follow, TrailEndsAt, NothingCloser, SettlesOn;
    var r := Follow(bound, at, pts, |pts|).best;
    FollowIndex(bound, at, pts, |pts|);
    ReturnsNearest(bound, at, pts);
    if r >= 0 { ReturnsEndOfTrail(bound, at, pts, r); }
    forall f: nat | IsFirstInside(bound, at, pts, f) ensures r == f <==> NothingCloser(at, pts, f) {
      FirstIsKept(bound, at, pts, f);
    }
    forall n: nat | NearestLeads(bound, at, pts, n) ensures r == n <==> NothingCloser(at, pts, n) {
      NearestComesFirst(bound, at, pts, n);
    }
  }

  // ---------------------------------------------------------------- two cases

  lemma OnAxis(a: real, b: real)
    ensures Dist2(P.Point(a, 0.0), P.Point(b, 0.0)) == Square(a - b)
  {
  }

  /** The returned detection need not be the nearest one: of detections 2 and 1 away from the lock
      on opposite sides, the scan keeps the first because the lock has moved onto it. */
  lemma FollowCanMissTheNearest()
    ensures var pts := [P.Point(2.0, 0.0), P.Point(-1.0, 0.0)];
            var at := P.Point(0.0, 0.0);
            Follow(Bound(5.0), at, pts, 2).best == 0 && Dist2(at, pts[1]) < Dist2(at, pts[0])
  {
    OnAxis(0.0, 2.0);
    OnAxis(0.0, -1.0);
    OnAxis(2.0, -1.0);
    hide Dist2, Follow;
    FollowBoth(Bound(5.0), P.Point(0.0, 0.0), P.Point(2.0, 0.0), P.Point(-1.0, 0.0));
  }

  /** Nor need it be inside the limit of the old lock: with a limit of 5 and detections 4 and 7 away on
      one side, the lock hops onto the first and from there onto the second. */
  lemma FollowCanLeaveTheLimit()
    ensures var pts := [P.Point(4.0, 0.0), P.Point(7.0, 0.0)];
            var at := P.Point(0.0, 0.0);
            Follow(Bound(5.0), at, pts, 2).best == 1 && !Within(5.0, at, pts[1])
  {
    OnAxis(0.0, 4.0);
    OnAxis(4.0, 7.0);
    OnAxis(0.0, 7.0);
    hide Dist2, Follow;
    FollowBoth(Bound(5.0), P.Point(0.0, 0.0), P.Point(4.0, 0.0), P.Point(7.0, 0.0));
  }
}
