/** Which track a detection goes to, said of the histories alone: to the earliest of the nearest ones that
    have no detection in this frame yet, and to a new one exactly when none is in range. */
module Assignments {
  import opened Association
  import opened GateTracks
  import opened Sequences

  /** The history's last sighting is where its track is. */
  predicate Free(h: History, now: int) {
    |h| > 0 && h[|h| - 1].frame < now
  }

  function Gap(h: History, at: Point): real
    requires |h| > 0
  {
    Dist2(h[|h| - 1].s.at, at)
  }

  /** History b is the earliest of the free ones nearest to the point among those within the distance;
      -1 when there are none. */
  predicate IsEarliestNearest(dist: real, now: int, hs: seq<History>, at: Point, b: int) {
    && -1 <= b < |hs|
    && (b == -1 ==> forall j :: 0 <= j < |hs| && Free(hs[j], now) ==> Gap(hs[j], at) >= Bound(dist))
    && (b >= 0 ==>
          && Free(hs[b], now) && Gap(hs[b], at) < Bound(dist)
          && forall j :: 0 <= j < |hs| && Free(hs[j], now) ==>
                           && Gap(hs[b], at) <= Gap(hs[j], at)
                           && (j < b ==> Gap(hs[b], at) < Gap(hs[j], at)))
  }

  /** Sight s was added to history b, or started one. */
  predicate IsGiven(now: int, hs: seq<History>, s: Sight, b: int, r: seq<History>) {
    && -1 <= b < |hs|
    && r == if b >= 0 then hs[b := hs[b] + [Sighting(now, s)]] else hs + [[Sighting(now, s)]]
  }

  ghost predicate GoesToNearest(dist: real, now: int, hs: seq<History>, s: Sight, r: seq<History>) {
    exists b :: IsEarliestNearest(dist, now, hs, s.at, b) && IsGiven(now, hs, s, b, r)
  }

  /** The sights are given out one after the other. */
  ghost predicate AllGoToNearest(dist: real, now: int, sights: seq<Sight>, steps: seq<seq<History>>) {
    && |steps| == |sights| + 1
    && forall i :: 0 <= i < |sights| ==> GoesToNearest(dist, now, steps[i], sights[i], steps[i + 1])
  }

  /** Exactly the histories seen within the last maxLost frames are left, in their order. */
  ghost predicate IsReaped(maxLost: int, now: int, hs: seq<History>, r: seq<History>) {
    exists idx :: Picks(r, hs, idx) && IsRecent(maxLost, now, hs, idx)
  }

  predicate IsRecent(maxLost: int, now: int, hs: seq<History>, idx: seq<nat>) {
    forall k :: 0 <= k < |hs| ==> (k in idx <==> |hs[k]| > 0 && now - hs[k][|hs[k]| - 1].frame <= maxLost)
  }

  /** A whole search frame as the histories show it. */
  ghost predicate IsSearched(p: Params, now: int, hs: seq<History>, sights: seq<Sight>, r: seq<History>) {
    exists steps :: && AllGoToNearest(p.dist, now, sights, steps)
                    && steps[0] == hs && IsReaped(p.maxLost, now, steps[|sights|], r)
  }

  // ---------------------------------------------------------------- one detection

  lemma TrackShowsHistory(p: Params, now: int, t: Track, h: History)
    requires TrackOk(p, now, t, h)
    ensures |h| > 0 && h[|h| - 1].s.at == t.at && h[|h| - 1].frame == now - t.lost
    ensures t.matched <==> !Free(h, now)
  {
    hide Chained, TailSupported;
  }

  lemma NearestInHistories(p: Params, now: int, tk: Tracks, at: Point, b: int)
    requires AllOk(p, now, tk)
    requires IsNearest(Bound(p.dist), Places(tk.tracks), Taken(tk.tracks), at, |tk.tracks|, b)
    ensures IsEarliestNearest(p.dist, now, tk.hist, at, b)
  {
    hide Dist2, Bound, TrackOk, Free;
    var pts, taken := Places(tk.tracks), Taken(tk.tracks);
    forall j | 0 <= j < |tk.hist|
      ensures |tk.hist[j]| > 0 && Gap(tk.hist[j], at) == Dist2(pts[j], at)
      ensures Free(tk.hist[j], now) <==> !taken[j]
    {
      assert TrackOk(p, now, tk.tracks[j], tk.hist[j]);
      TrackShowsHistory(p, now, tk.tracks[j], tk.hist[j]);
    }
    hide Gap, Places, Taken, AllOk;
  }

  lemma OneGoesToNearest(p: Params, now: int, tk: Tracks, s: Sight)
    requires AllOk(p, now, tk)
    ensures GoesToNearest(p.dist, now, tk.hist, s, AssocOne(p.dist, now, tk, s).hist)
  {
    var b := Choose(p.dist, tk.tracks, s);
    assert IsGiven(now, tk.hist, s, b, AssocOne(p.dist, now, tk, s).hist);
    NearestIs(Bound(p.dist), Places(tk.tracks), Taken(tk.tracks), s.at, |tk.tracks|);
    hide AllOk, Nearest, IsNearest, AssocOne, IsEarliestNearest, IsGiven;
    NearestInHistories(p, now, tk, s.at, b);
  }

  // ---------------------------------------------------------------- one frame

  /** The histories before each sight, and after the last. */
  function HistorySteps(dist: real, now: int, tk: Tracks, sights: seq<Sight>): (steps: seq<seq<History>>)
    requires |tk.tracks| == |tk.hist|
    ensures |steps| == |sights| + 1
    ensures forall i :: 0 <= i <= |sights| ==> steps[i] == Assoc(dist, now, tk, sights, i).hist
  {
    seq(|sights| + 1, i requires 0 <= i <= |sights| => Assoc(dist, now, tk, sights, i).hist)
  }

  lemma SightGoesToNearest(p: Params, now: int, tk: Tracks, sights: seq<Sight>, i: nat)
    requires i < |sights| && AllOk(p, now, tk)
    ensures GoesToNearest(p.dist, now, Assoc(p.dist, now, tk, sights, i).hist, sights[i],
                          Assoc(p.dist, now, tk, sights, i + 1).hist)
  {
    AssocOk(p, now, tk, sights, i);
    hide AllOk, AssocOne, GoesToNearest;
    OneGoesToNearest(p, now, Assoc(p.dist, now, tk, sights, i), sights[i]);
  }

  lemma SightsGoToNearest(p: Params, now: int, tk: Tracks, sights: seq<Sight>)
    requires AllOk(p, now, tk)
    ensures AllGoToNearest(p.dist, now, sights, HistorySteps(p.dist, now, tk, sights))
  {
    var steps := HistorySteps(p.dist, now, tk, sights);
    hide AllOk, Assoc, GoesToNearest;
    forall i | 0 <= i < |sights| ensures GoesToNearest(p.dist, now, steps[i], sights[i], steps[i + 1]) {
      SightGoesToNearest(p, now, tk, sights, i);
    }
  }

  lemma ReapedByAge(p: Params, now: int, tk: Tracks)
    requires AllOk(p, now, tk)
    ensures IsReaped(p.maxLost, now, tk.hist, Reap(p.maxLost, tk).hist)
  {
    var idx := Kept(p.maxLost, tk.tracks, |tk.tracks|);
    KeptAre(p.maxLost, tk.tracks, |tk.tracks|);
    assert Picks(Reap(p.maxLost, tk).hist, tk.hist, idx);
    hide Kept, TrackOk;
    forall k | 0 <= k < |tk.hist|
      ensures k in idx <==> |tk.hist[k]| > 0 && now - tk.hist[k][|tk.hist[k]| - 1].frame <= p.maxLost
    {
      assert TrackOk(p, now, tk.tracks[k], tk.hist[k]);
      TrackShowsHistory(p, now, tk.tracks[k], tk.hist[k]);
    }
    assert IsRecent(p.maxLost, now, tk.hist, idx);
  }

  lemma NothingGiven(dist: real, now: int, tk: Tracks, sights: seq<Sight>)
    requires |tk.tracks| == |tk.hist|
    ensures Assoc(dist, now, Begin(tk), sights, 0).hist == tk.hist
  {
  }

  /** In a search frame every detection, in processing order, goes to the earliest of the nearest tracks
      not seen in this frame yet, a new track starts exactly when none is in range, and exactly the
      tracks seen within the last maxLost frames stay. */
  lemma SearchGoesToNearest(p: Params, now: int, tk: Tracks, sights: seq<Sight>)
    requires AllOk(p, now - 1, tk) && Fresh(p, tk.tracks)
    ensures IsSearched(p, now, tk.hist, sights, Search(p, now, tk, sights).hist)
  {
    hide AllOk, Fresh, Assoc, Reap, AllGoToNearest, IsReaped;
    BeginOk(p, now, tk);
    SightsGoToNearest(p, now, Begin(tk), sights);
    var steps := HistorySteps(p.dist, now, Begin(tk), sights);
    assert steps[0] == tk.hist by { NothingGiven(p.dist, now, tk, sights); }
    AssocOk(p, now, Begin(tk), sights, |sights|);
    ReapedByAge(p, now, Assoc(p.dist, now, Begin(tk), sights, |sights|));
  }

  // ---------------------------------------------------------------- what age and support count

  /** The history ends now, is long enough and ends in enough supported sightings. */
  predicate IsProven(minAge: int, minSupport: int, now: int, h: History) {
    && |h| > 0 && h[|h| - 1].frame == now
    && |h| >= minAge && |h| >= minSupport && TailSupported(h, minSupport)
  }

  /** The counters of a track decide exactly what its history shows. */
  lemma CountersDecide(p: Params, now: int, t: Track, h: History, minAge: int, minSupport: int)
    requires TrackOk(p, now, t, h)
    ensures t.lost == 0 && t.age >= minAge && t.sup >= minSupport <==> IsProven(minAge, minSupport, now, h)
  {
    hide Chained;
    if t.sup < minSupport <= |h| { assert !h[|h| - 1 - t.sup].s.supported; }
  }
}
