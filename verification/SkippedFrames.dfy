/** When the sightings that support a confirmation lie in consecutive frames, as both gates are
    documented to demand: what rules a skipped frame out, and a run that has one. */
module SkippedFrames {
  import opened Reals
  import opened Association
  import opened GateTracks

  /** The last m sightings lie in consecutive frames. */
  predicate Consecutive(h: History, m: int) {
    forall i :: 0 <= i < |h| - 1 && |h| - m <= i ==> h[i + 1].frame == h[i].frame + 1
  }

  /** The parameters leave no room for a skipped frame among m sightings. */
  predicate NoRoomToSkip(p: Params, m: int) {
    p.maxLost <= 0 || m <= 1 || p.dist <= 0.0
  }

  lemma NeverWithin(dist: real, a: Point, b: Point)
    requires dist <= 0.0
    ensures !Within(dist, a, b)
  {
    SquareNonNegative(a.x - b.x);
    SquareNonNegative(a.y - b.y);
  }

  lemma ChainedIsConsecutive(p: Params, h: History, m: int)
    requires Chained(p, h) && NoRoomToSkip(p, m)
    ensures Consecutive(h, m)
  {
    hide Within;
    forall i | 0 <= i < |h| - 1 && |h| - m <= i ensures h[i + 1].frame == h[i].frame + 1 {
      if p.dist <= 0.0 { NeverWithin(p.dist, h[i].s.at, h[i + 1].s.at); }
    }
  }

  lemma HistoriesAreChained(p: Params, now: int, tk: Tracks)
    requires AllOk(p, now, tk)
    ensures forall k :: 0 <= k < |tk.hist| ==> Chained(p, tk.hist[k])
  {
    forall k | 0 <= k < |tk.hist| ensures Chained(p, tk.hist[k]) {
      assert TrackOk(p, now, tk.tracks[k], tk.hist[k]);
    }
  }

  /** A track seen again at its own place. */
  lemma SearchOneSight(p: Params, now: int, t: Track, h: History, s: Sight)
    requires t.at == s.at && p.dist > 0.0 && p.maxLost >= 0
    ensures Search(p, now, Tracks([t], [h]), [s])
            == Tracks([Refreshed(Started(t), s)], [h + [Sighting(now, s)]])
  {
    var b := Begin(Tracks([t], [h]));
    assert b == Tracks([Started(t)], [h]);
    AssocOnPlace(p.dist, now, Started(t), h, s);
    hide AssocOne, Begin;
    assert Assoc(p.dist, now, b, [s], 0) == b;
    assert Assoc(p.dist, now, b, [s], 1) == AssocOne(p.dist, now, b, s);
    ReapNothing(p.maxLost, Refreshed(Started(t), s), h + [Sighting(now, s)]);
  }

  lemma OwnPlaceIsChosen(dist: real, t: Track, s: Sight)
    requires t.at == s.at && !t.matched && dist > 0.0
    ensures Choose(dist, [t], s) == 0
  {
    BoundPositive(dist);
    assert Dist2(t.at, s.at) == 0.0;
    hide Dist2, Bound;
    assert Places([t])[0] == t.at && Taken([t])[0] == t.matched;
    assert Nearest(Bound(dist), Places([t]), Taken([t]), s.at, 0) == (-1, Bound(dist));
    assert Nearest(Bound(dist), Places([t]), Taken([t]), s.at, 1) == (0, 0.0);
  }

  lemma AssocOnPlace(dist: real, now: int, t: Track, h: History, s: Sight)
    requires t.at == s.at && !t.matched && dist > 0.0
    ensures AssocOne(dist, now, Tracks([t], [h]), s) == Tracks([Refreshed(t, s)], [h + [Sighting(now, s)]])
  {
    OwnPlaceIsChosen(dist, t, s);
    hide Choose, Refreshed;
    assert [t][0 := Refreshed(t, s)] == [Refreshed(t, s)];
    assert [h][0 := h + [Sighting(now, s)]] == [h + [Sighting(now, s)]];
  }

  lemma AssocFirst(dist: real, now: int, s: Sight)
    ensures AssocOne(dist, now, NONE, s) == Tracks([NewTrack(s)], [[Sighting(now, s)]])
  {
    hide NewTrack;
  }

  lemma ReapNothing(maxLost: int, t: Track, h: History)
    requires t.lost <= maxLost
    ensures Reap(maxLost, Tracks([t], [h])) == Tracks([t], [h])
  {
    assert Kept(maxLost, [t], 0) == [];
    assert Kept(maxLost, [t], 1) == [0];
  }

  /** A first sight. */
  lemma SearchFirstSight(p: Params, now: int, s: Sight)
    requires p.maxLost >= 0
    ensures Search(p, now, NONE, [s]) == Tracks([NewTrack(s)], [[Sighting(now, s)]])
  {
    assert Begin(NONE) == NONE;
    AssocFirst(p.dist, now, s);
    hide Begin, AssocOne;
    assert Assoc(p.dist, now, NONE, [s], 0) == NONE;
    assert Assoc(p.dist, now, NONE, [s], 1) == AssocOne(p.dist, now, NONE, s);
    ReapNothing(p.maxLost, NewTrack(s), [Sighting(now, s)]);
  }

  /** A frame without detections. */
  lemma SearchNoSight(p: Params, now: int, t: Track, h: History)
    requires t.lost + 1 <= p.maxLost
    ensures Search(p, now, Tracks([t], [h]), []) == Tracks([Started(t)], [h])
  {
    assert Begin(Tracks([t], [h])) == Tracks([Started(t)], [h]);
    hide Begin;
    ReapNothing(p.maxLost, Started(t), h);
  }

  /** Supported sights at one place, and what the first k of them make. */
  predicate Steady(ss: seq<Sight>, at: Point) {
    forall i :: 0 <= i < |ss| ==> ss[i].at == at && ss[i].supported
  }

  function SteadyHistory(ss: seq<Sight>, k: nat): (h: History)
    requires k <= |ss|
    ensures |h| == k && forall i :: 0 <= i < k ==> h[i] == Sighting(i, ss[i])
  {
    seq(k, i requires 0 <= i < k => Sighting(i, ss[i]))
  }

  function SteadyTracks(ss: seq<Sight>, at: Point, k: nat): Tracks
    requires k <= |ss|
  {
    if k == 0 then NONE
    else Tracks([Track(at, k, 0, k, true, ss[k - 1].src)], [SteadyHistory(ss, k)])
  }

  lemma SteadyStep(p: Params, ss: seq<Sight>, at: Point, k: nat)
    requires k < |ss| && Steady(ss, at) && p.dist > 0.0 && p.maxLost >= 0
    ensures Search(p, k, SteadyTracks(ss, at, k), [ss[k]]) == SteadyTracks(ss, at, k + 1)
  {
    hide Search;
    var next := SteadyHistory(ss, k + 1);
    if k == 0 {
      SearchFirstSight(p, 0, ss[0]);
      assert next == [Sighting(0, ss[0])];
    } else {
      SearchOneSight(p, k, Track(at, k, 0, k, true, ss[k - 1].src), SteadyHistory(ss, k), ss[k]);
      assert next == SteadyHistory(ss, k) + [Sighting(k, ss[k])];
    }
  }

  /** The k sightings, a frame without any, and one sighting more. */
  function GapTracks(ss: seq<Sight>, at: Point, k: nat, s: Sight): Tracks
    requires k <= |ss|
  {
    Tracks([Track(at, k + 1, 0, k + 1, true, s.src)], [SteadyHistory(ss, k) + [Sighting(k + 1, s)]])
  }

  lemma GapStep(p: Params, ss: seq<Sight>, at: Point, k: nat, s: Sight)
    requires 0 < k <= |ss| && s.at == at && s.supported && p.dist > 0.0 && p.maxLost >= 1
    ensures Search(p, k + 1, Search(p, k, SteadyTracks(ss, at, k), []), [s]) == GapTracks(ss, at, k, s)
    ensures forall t :: t in Search(p, k, SteadyTracks(ss, at, k), []).tracks ==> t.lost != 0
  {
    var t, h := Track(at, k, 0, k, true, ss[k - 1].src), SteadyHistory(ss, k);
    hide Search;
    SearchNoSight(p, k, t, h);
    SearchOneSight(p, k + 1, Started(t), h, s);
  }

  /** That history skips a frame among its last two sightings. */
  lemma GapIsNotConsecutive(ss: seq<Sight>, at: Point, k: nat, s: Sight, m: int)
    requires 0 < k <= |ss| && m >= 2
    ensures !Consecutive(GapTracks(ss, at, k, s).hist[0], m)
  {
    var h := GapTracks(ss, at, k, s).hist[0];
    assert h[k - 1].frame == k - 1 && h[k - 1 + 1].frame == k + 1;
  }
}
