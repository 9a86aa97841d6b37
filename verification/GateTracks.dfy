/** The track list that the persistence gate and the detection gate both keep, with the history
    of the detections each track was built from. */
module GateTracks {
  import opened Association
  import opened Sequences

  /** dist: association distance; maxLost: frames a track survives unseen. */
  datatype Params = Params(dist: real, minAge: int, minSupport: int, maxLost: int)

  /** A detection as the association sees it. The persistence gate's detections have no size. */
  datatype Sight = Sight(at: Point, w: real, h: real, conf: real, supported: bool, src: int)

  datatype Track = Track(at: Point, age: int, lost: int, sup: int, matched: bool, src: int)

  datatype Sighting = Sighting(frame: int, s: Sight)

  type History = seq<Sighting>

  /** Track k was built from the sightings hist[k], oldest first. */
  datatype Tracks = Tracks(tracks: seq<Track>, hist: seq<History>)

  const NONE := Tracks([], [])

  // ---------------------------------------------------------------- one search frame

  function Started(t: Track): Track {
    t.(lost := t.lost + 1, matched := false)
  }

  function Begin(tk: Tracks): (r: Tracks)
    ensures |r.tracks| == |tk.tracks| && r.hist == tk.hist
    ensures forall k :: 0 <= k < |r.tracks| ==> r.tracks[k] == Started(tk.tracks[k])
  {
    Tracks(seq(|tk.tracks|, k requires 0 <= k < |tk.tracks| => Started(tk.tracks[k])), tk.hist)
  }

  function Places(ts: seq<Track>): (r: seq<Point>)
    ensures |r| == |ts| && forall k :: 0 <= k < |r| ==> r[k] == ts[k].at
  {
    seq(|ts|, k requires 0 <= k < |ts| => ts[k].at)
  }

  function Taken(ts: seq<Track>): (r: seq<bool>)
    ensures |r| == |ts| && forall k :: 0 <= k < |r| ==> r[k] == ts[k].matched
  {
    seq(|ts|, k requires 0 <= k < |ts| => ts[k].matched)
  }

  /** The nearest free track within the distance, or -1. */
  function Choose(dist: real, ts: seq<Track>, s: Sight): (b: int)
    ensures -1 <= b < |ts|
  {
    Nearest(Bound(dist), Places(ts), Taken(ts), s.at, |ts|).0
  }

  lemma ChosenIsFreeAndNear(dist: real, ts: seq<Track>, s: Sight)
    ensures var b := Choose(dist, ts, s); b >= 0 ==> !ts[b].matched && Within(dist, ts[b].at, s.at)
  {
    NearestIs(Bound(dist), Places(ts), Taken(ts), s.at, |ts|);
    hide Nearest, Dist2, Bound;
  }

  function Refreshed(t: Track, s: Sight): Track {
    Track(s.at, t.age + 1, 0, if s.supported then t.sup + 1 else 0, true, s.src)
  }

  function NewTrack(s: Sight): Track {
    Track(s.at, 1, 0, if s.supported then 1 else 0, true, s.src)
  }

  function AssocOne(dist: real, now: int, tk: Tracks, s: Sight): (r: Tracks)
    requires |tk.tracks| == |tk.hist|
    ensures |r.tracks| == |r.hist|
  {
    var b := Choose(dist, tk.tracks, s);
    if b >= 0 then
      Tracks(tk.tracks[b := Refreshed(tk.tracks[b], s)], tk.hist[b := tk.hist[b] + [Sighting(now, s)]])
    else
      Tracks(tk.tracks + [NewTrack(s)], tk.hist + [[Sighting(now, s)]])
  }

  /** The first i sights, in processing order. */
  function Assoc(dist: real, now: int, tk: Tracks, sights: seq<Sight>, i: nat): (r: Tracks)
    requires |tk.tracks| == |tk.hist| && i <= |sights|
    ensures |r.tracks| == |r.hist|
  {
    if i == 0 then tk else AssocOne(dist, now, Assoc(dist, now, tk, sights, i - 1), sights[i - 1])
  }

  /** Indices below k of the tracks not lost for too long. */
  function Kept(maxLost: int, ts: seq<Track>, k: nat): (r: seq<nat>)
    requires k <= |ts|
    ensures forall i :: 0 <= i < |r| ==> r[i] < k
  {
    if k == 0 then []
    else if ts[k - 1].lost <= maxLost then Kept(maxLost, ts, k - 1) + [k - 1]
    else Kept(maxLost, ts, k - 1)
  }

  function Pick<T>(xs: seq<T>, idx: seq<nat>): (r: seq<T>)
    requires forall i :: 0 <= i < |idx| ==> idx[i] < |xs|
    ensures |r| == |idx| && forall i :: 0 <= i < |r| ==> r[i] == xs[idx[i]]
  {
    seq(|idx|, i requires 0 <= i < |idx| => xs[idx[i]])
  }

  function Reap(maxLost: int, tk: Tracks): (r: Tracks)
    requires |tk.tracks| == |tk.hist|
    ensures |r.tracks| == |r.hist|
  {
    var idx := Kept(maxLost, tk.tracks, |tk.tracks|);
    Tracks(Pick(tk.tracks, idx), Pick(tk.hist, idx))
  }

  /** A whole search frame: age, associate, reap. */
  function Search(p: Params, now: int, tk: Tracks, sights: seq<Sight>): (r: Tracks)
    requires |tk.tracks| == |tk.hist|
    ensures |r.tracks| == |r.hist|
  {
    Reap(p.maxLost, Assoc(p.dist, now, Begin(tk), sights, |sights|))
  }

  // ---------------------------------------------------------------- what a history shows

  /** Consecutive sightings are near each other and at most maxLost frames are skipped between them. */
  predicate Chained(p: Params, h: History) {
    forall i :: 0 <= i < |h| - 1 ==>
                  && 0 < h[i + 1].frame - h[i].frame <= p.maxLost + 1
                  && Within(p.dist, h[i].s.at, h[i + 1].s.at)
  }

  predicate TailSupported(h: History, n: int) {
    forall i :: |h| - n <= i < |h| && 0 <= i ==> h[i].s.supported
  }

  predicate TrackOk(p: Params, now: int, t: Track, h: History) {
    && |h| == t.age >= 1
    && h[|h| - 1].frame == now - t.lost && h[|h| - 1].s.at == t.at && h[|h| - 1].s.src == t.src
    && 0 <= t.sup <= t.age && TailSupported(h, t.sup) && (t.sup < t.age ==> !h[t.age - 1 - t.sup].s.supported)
    && Chained(p, h)
    && 0 <= t.lost && (t.matched <==> t.lost == 0) && (t.lost > 0 ==> t.lost <= p.maxLost + 1)
  }

  predicate AllOk(p: Params, now: int, tk: Tracks) {
    && |tk.tracks| == |tk.hist|
    && forall k :: 0 <= k < |tk.tracks| ==> TrackOk(p, now, tk.tracks[k], tk.hist[k])
  }

  predicate Fresh(p: Params, ts: seq<Track>) {
    forall k :: 0 <= k < |ts| ==> ts[k].lost <= p.maxLost
  }

  /** Every sighting is a detection of its frame. */
  predicate Seen(h: History, frames: seq<seq<Sight>>) {
    forall i :: 0 <= i < |h| ==> 0 <= h[i].frame < |frames| && h[i].s in frames[h[i].frame]
  }

  predicate AllSeen(tk: Tracks, frames: seq<seq<Sight>>) {
    forall k :: 0 <= k < |tk.hist| ==> Seen(tk.hist[k], frames)
  }

  lemma BeginOk(p: Params, now: int, tk: Tracks)
    requires AllOk(p, now - 1, tk) && Fresh(p, tk.tracks)
    ensures AllOk(p, now, Begin(tk)) && forall t :: t in Begin(tk).tracks ==> !t.matched
  {
    var r := Begin(tk);
    forall k | 0 <= k < |r.tracks| ensures TrackOk(p, now, r.tracks[k], r.hist[k]) {
      assert TrackOk(p, now - 1, tk.tracks[k], tk.hist[k]);
    }
  }

  lemma RefreshOk(p: Params, now: int, t: Track, h: History, s: Sight)
    requires TrackOk(p, now, t, h) && !t.matched && Within(p.dist, t.at, s.at)
    ensures TrackOk(p, now, Refreshed(t, s), h + [Sighting(now, s)])
  {
    hide Within;
    var g := h + [Sighting(now, s)];
    forall i | 0 <= i < |g| - 1
      ensures 0 < g[i + 1].frame - g[i].frame <= p.maxLost + 1 && Within(p.dist, g[i].s.at, g[i + 1].s.at)
    {
      if i < |h| - 1 { assert g[i] == h[i] && g[i + 1] == h[i + 1]; }
    }
  }

  lemma AssocOneOk(p: Params, now: int, tk: Tracks, s: Sight)
    requires AllOk(p, now, tk)
    ensures AllOk(p, now, AssocOne(p.dist, now, tk, s))
  {
    ChosenIsFreeAndNear(p.dist, tk.tracks, s);
    hide Choose, Within, Refreshed;
    var b := Choose(p.dist, tk.tracks, s);
    if b >= 0 {
      RefreshOk(p, now, tk.tracks[b], tk.hist[b], s);
      hide TrackOk;
    }
  }

  lemma {:induction false} AssocOk(p: Params, now: int, tk: Tracks, sights: seq<Sight>, i: nat)
    requires i <= |sights| && AllOk(p, now, tk)
    ensures AllOk(p, now, Assoc(p.dist, now, tk, sights, i))
  {
    hide AssocOne, TrackOk;
    if i == 0 {
    } else {
      AssocOk(p, now, tk, sights, i - 1);
      AssocOneOk(p, now, Assoc(p.dist, now, tk, sights, i - 1), sights[i - 1]);
    }
  }

  lemma {:induction false} AssocSeen(dist: real, tk: Tracks, sights: seq<Sight>, i: nat, frames: seq<seq<Sight>>)
    requires i <= |sights| && |tk.tracks| == |tk.hist| && AllSeen(tk, frames)
    requires frames != [] && forall j :: 0 <= j < |sights| ==> sights[j] in frames[|frames| - 1]
    ensures AllSeen(Assoc(dist, |frames| - 1, tk, sights, i), frames)
  {
    hide Choose;
    if i == 0 {
    } else {
      AssocSeen(dist, tk, sights, i - 1, frames);
    }
  }

  lemma SeenGrows(tk: Tracks, frames: seq<seq<Sight>>, f: seq<Sight>)
    requires AllSeen(tk, frames)
    ensures AllSeen(tk, frames + [f])
  {
    forall k | 0 <= k < |tk.hist| ensures Seen(tk.hist[k], frames + [f]) {
      assert Seen(tk.hist[k], frames);
    }
  }

  lemma {:induction false} KeptAre(maxLost: int, ts: seq<Track>, k: nat)
    requires k <= |ts|
    ensures forall i :: 0 <= i < k ==> (i in Kept(maxLost, ts, k) <==> ts[i].lost <= maxLost)
    ensures Increasing(Kept(maxLost, ts, k))
  {
    if k == 0 {
    } else {
      KeptAre(maxLost, ts, k - 1);
    }
  }

  lemma ReapOk(p: Params, now: int, tk: Tracks, frames: seq<seq<Sight>>)
    requires AllOk(p, now, tk) && AllSeen(tk, frames)
    ensures AllOk(p, now, Reap(p.maxLost, tk)) && AllSeen(Reap(p.maxLost, tk), frames)
    ensures Fresh(p, Reap(p.maxLost, tk).tracks)
  {
    KeptAre(p.maxLost, tk.tracks, |tk.tracks|);
    hide Kept, TrackOk, Seen;
    var idx := Kept(p.maxLost, tk.tracks, |tk.tracks|);
    forall i | 0 <= i < |idx| ensures tk.tracks[idx[i]].lost <= p.maxLost {
      assert idx[i] in idx;
    }
  }

  /** A search frame keeps every track's history honest. */
  lemma SearchOk(p: Params, tk: Tracks, sights: seq<Sight>, frames: seq<seq<Sight>>, f: seq<Sight>)
    requires AllOk(p, |frames| - 1, tk) && Fresh(p, tk.tracks) && AllSeen(tk, frames)
    requires forall j :: 0 <= j < |sights| ==> sights[j] in f
    ensures var r := Search(p, |frames|, tk, sights);
            AllOk(p, |frames|, r) && Fresh(p, r.tracks) && AllSeen(r, frames + [f])
  {
    hide AllOk, Fresh, AllSeen, Assoc, Reap, Begin;
    ghost var g := frames + [f];
    BeginOk(p, |frames|, tk);
    SeenGrows(tk, frames, f);
    BeginCounts(tk, g);
    AssocOk(p, |frames|, Begin(tk), sights, |sights|);
    AssocSeen(p.dist, Begin(tk), sights, |sights|, g);
    ReapOk(p, |frames|, Assoc(p.dist, |frames|, Begin(tk), sights, |sights|), g);
  }

  lemma BeginCounts(tk: Tracks, frames: seq<seq<Sight>>)
    requires |tk.tracks| == |tk.hist| && AllSeen(tk, frames)
    ensures |Begin(tk).tracks| == |Begin(tk).hist| && AllSeen(Begin(tk), frames)
  {
    hide Seen;
  }

  // ---------------------------------------------------------------- one track per detection

  /** Track t was refreshed or made by sight s in this frame. */
  predicate Holds(t: Track, s: Sight) {
    t.lost == 0 && t.at == s.at && t.src == s.src
  }

  ghost predicate Owned(ts: seq<Track>, s: Sight) {
    exists k :: 0 <= k < |ts| && Holds(ts[k], s)
  }

  predicate HoldsSome(t: Track, sights: seq<Sight>, i: nat)
    requires i <= |sights|
  {
    exists j :: 0 <= j < i && Holds(t, sights[j])
  }

  predicate DistinctSources(sights: seq<Sight>) {
    forall i, j :: 0 <= i < j < |sights| ==> sights[i].src != sights[j].src
  }

  ghost predicate AllOwned(ts: seq<Track>, sights: seq<Sight>, i: nat)
    requires i <= |sights|
  {
    forall j :: 0 <= j < i ==> Owned(ts, sights[j])
  }

  predicate AllHold(ts: seq<Track>, sights: seq<Sight>, i: nat)
    requires i <= |sights|
  {
    forall k :: 0 <= k < |ts| && ts[k].lost == 0 ==> HoldsSome(ts[k], sights, i)
  }

  predicate SeenApart(ts: seq<Track>) {
    forall k, l :: 0 <= k < l < |ts| && ts[k].lost == 0 && ts[l].lost == 0 ==> ts[k].src != ts[l].src
  }

  /** The tracks seen in this frame and the first i sights correspond one to one. */
  ghost predicate OneToOne(ts: seq<Track>, sights: seq<Sight>, i: nat)
    requires i <= |sights|
  {
    AllOwned(ts, sights, i) && AllHold(ts, sights, i) && SeenApart(ts)
  }

  /** Tracks seen in this frame are exactly the taken ones. */
  predicate MatchedAreSeen(ts: seq<Track>) {
    forall k :: 0 <= k < |ts| ==> (ts[k].matched <==> ts[k].lost == 0)
  }

  /** From ts to r only place b changed, from a track not seen in this frame (or from nothing)
      to one that holds s. */
  predicate Replaced(ts: seq<Track>, r: seq<Track>, b: nat, s: Sight) {
    && b < |r| && |r| == (if b == |ts| then b + 1 else |ts|)
    && Holds(r[b], s) && (b < |ts| ==> ts[b].lost != 0)
    && forall k :: 0 <= k < |r| && k != b ==> r[k] == ts[k]
  }

  lemma AssocOneReplaces(dist: real, now: int, tk: Tracks, s: Sight) returns (b: nat)
    requires |tk.tracks| == |tk.hist| && MatchedAreSeen(tk.tracks)
    ensures MatchedAreSeen(AssocOne(dist, now, tk, s).tracks)
    ensures Replaced(tk.tracks, AssocOne(dist, now, tk, s).tracks, b, s)
  {
    ChosenIsFreeAndNear(dist, tk.tracks, s);
    hide Choose;
    b := if Choose(dist, tk.tracks, s) < 0 then |tk.tracks| else Choose(dist, tk.tracks, s);
  }

  lemma OwnedStep(ts: seq<Track>, r: seq<Track>, b: nat, sights: seq<Sight>, i: nat)
    requires i < |sights| && AllOwned(ts, sights, i) && Replaced(ts, r, b, sights[i])
    ensures AllOwned(r, sights, i + 1)
  {
    forall j | 0 <= j < i + 1 ensures Owned(r, sights[j]) {
      if j < i {
        assert Owned(ts, sights[j]);
        var k :| 0 <= k < |ts| && Holds(ts[k], sights[j]);
        assert r[k] == ts[k];
      }
    }
  }

  lemma HoldStep(ts: seq<Track>, r: seq<Track>, b: nat, sights: seq<Sight>, i: nat)
    requires i < |sights| && AllHold(ts, sights, i) && Replaced(ts, r, b, sights[i])
    ensures AllHold(r, sights, i + 1)
  {
    forall k | 0 <= k < |r| && r[k].lost == 0 ensures HoldsSome(r[k], sights, i + 1) {
      if k != b {
        assert HoldsSome(ts[k], sights, i);
      } else {
        assert Holds(r[k], sights[i]);
      }
    }
  }

  lemma ApartStep(ts: seq<Track>, r: seq<Track>, b: nat, sights: seq<Sight>, i: nat)
    requires i < |sights| && DistinctSources(sights) && AllHold(ts, sights, i) && SeenApart(ts)
    requires Replaced(ts, r, b, sights[i])
    ensures SeenApart(r)
  {
    forall k | 0 <= k < |r| && k != b && r[k].lost == 0 ensures r[k].src != r[b].src {
      assert HoldsSome(ts[k], sights, i);
    }
  }

  predicate Unseen(ts: seq<Track>) {
    forall k :: 0 <= k < |ts| ==> ts[k].lost != 0 && !ts[k].matched
  }

  lemma UnseenOneToOne(ts: seq<Track>, sights: seq<Sight>)
    requires Unseen(ts)
    ensures OneToOne(ts, sights, 0) && MatchedAreSeen(ts)
  {
  }

  lemma OneToOneStep(dist: real, now: int, tk: Tracks, sights: seq<Sight>, i: nat)
    requires |tk.tracks| == |tk.hist| && i < |sights| && DistinctSources(sights)
    requires OneToOne(tk.tracks, sights, i) && MatchedAreSeen(tk.tracks)
    ensures var r := AssocOne(dist, now, tk, sights[i]).tracks; OneToOne(r, sights, i + 1) && MatchedAreSeen(r)
  {
    hide AssocOne, AllOwned, AllHold, SeenApart, MatchedAreSeen, DistinctSources, Replaced;
    var r := AssocOne(dist, now, tk, sights[i]).tracks;
    var b := AssocOneReplaces(dist, now, tk, sights[i]);
    OwnedStep(tk.tracks, r, b, sights, i);
    HoldStep(tk.tracks, r, b, sights, i);
    ApartStep(tk.tracks, r, b, sights, i);
  }

  lemma {:induction false} AssocOneToOne(dist: real, now: int, tk: Tracks, sights: seq<Sight>, i: nat)
    requires i <= |sights| && DistinctSources(sights) && |tk.tracks| == |tk.hist| && Unseen(tk.tracks)
    ensures var r := Assoc(dist, now, tk, sights, i).tracks; OneToOne(r, sights, i) && MatchedAreSeen(r)
  {
    hide AssocOne, OneToOne, MatchedAreSeen, DistinctSources, Unseen;
    if i == 0 {
      UnseenOneToOne(tk.tracks, sights);
    } else {
      AssocOneToOne(dist, now, tk, sights, i - 1);
      OneToOneStep(dist, now, Assoc(dist, now, tk, sights, i - 1), sights, i - 1);
    }
  }

  lemma ReapOneToOne(maxLost: int, tk: Tracks, sights: seq<Sight>)
    requires maxLost >= 0 && |tk.tracks| == |tk.hist| && OneToOne(tk.tracks, sights, |sights|)
    ensures OneToOne(Reap(maxLost, tk).tracks, sights, |sights|)
  {
    KeptAre(maxLost, tk.tracks, |tk.tracks|);
    hide Kept, HoldsSome;
    var idx := Kept(maxLost, tk.tracks, |tk.tracks|);
    var r := Reap(maxLost, tk).tracks;
    forall j | 0 <= j < |sights| ensures Owned(r, sights[j]) {
      assert Owned(tk.tracks, sights[j]);
      var k :| 0 <= k < |tk.tracks| && Holds(tk.tracks[k], sights[j]);
      assert k in idx;
      var m :| 0 <= m < |idx| && idx[m] == k;
      assert Holds(r[m], sights[j]);
    }
  }

  lemma BeginUnseen(p: Params, now: int, tk: Tracks)
    requires AllOk(p, now - 1, tk)
    ensures Unseen(Begin(tk).tracks)
  {
    var b := Begin(tk);
    forall k | 0 <= k < |b.tracks| ensures b.tracks[k].lost != 0 && !b.tracks[k].matched {
      assert TrackOk(p, now - 1, tk.tracks[k], tk.hist[k]);
    }
  }

  lemma SearchKeepsNothing(p: Params, now: int, tk: Tracks, sights: seq<Sight>)
    requires p.maxLost < 0 && AllOk(p, now - 1, tk) && Fresh(p, tk.tracks)
    ensures Search(p, now, tk, sights).tracks == []
  {
    hide Assoc, Begin, TrackOk;
    BeginOk(p, now, tk);
    AssocOk(p, now, Begin(tk), sights, |sights|);
    var a := Assoc(p.dist, now, Begin(tk), sights, |sights|);
    KeptAre(p.maxLost, a.tracks, |a.tracks|);
    hide Kept;
    var idx := Kept(p.maxLost, a.tracks, |a.tracks|);
    if idx != [] {
      assert idx[0] in idx;
      assert TrackOk(p, now, a.tracks[idx[0]], a.hist[idx[0]]);
      LostIsNatural(p, now, a.tracks[idx[0]], a.hist[idx[0]]);
      assert false;
    }
  }

  lemma LostIsNatural(p: Params, now: int, t: Track, h: History)
    requires TrackOk(p, now, t, h)
    ensures t.lost >= 0
  {
  }

  /** After a search frame the tracks just seen are in bijection with the frame's detections,
      unless maxLost is negative and there was a detection to lose. */
  lemma SearchOneToOne(p: Params, now: int, tk: Tracks, sights: seq<Sight>)
    requires AllOk(p, now - 1, tk) && Fresh(p, tk.tracks) && DistinctSources(sights)
    ensures OneToOne(Search(p, now, tk, sights).tracks, sights, |sights|) <==> p.maxLost >= 0 || sights == []
  {
    var b := Begin(tk);
    assert Unseen(b.tracks) by { BeginUnseen(p, now, tk); }
    hide Assoc, Begin, Reap, AllOk, DistinctSources, Unseen, AllHold, SeenApart;
    AssocOneToOne(p.dist, now, b, sights, |sights|);
    if p.maxLost >= 0 {
      ReapOneToOne(p.maxLost, Assoc(p.dist, now, b, sights, |sights|), sights);
    } else {
      SearchKeepsNothing(p, now, tk, sights);
      if sights == [] { NoTracksOneToOne(); } else { assert !Owned([], sights[0]); }
    }
  }

  lemma NoTracksOneToOne()
    ensures OneToOne([], [], 0)
  {
  }

  // ---------------------------------------------------------------- the loops

  /** The ageing loop. */
  method AgeAll(ts: seq<Track>) returns (r: seq<Track>)
    ensures r == Begin(Tracks(ts, [])).tracks
  {
    r := ts;
    for k := 0 to |ts|
      invariant |r| == |ts|
      invariant forall j :: 0 <= j < k ==> r[j] == Started(ts[j])
      invariant forall j :: k <= j < |ts| ==> r[j] == ts[j]
    {
      r := r[k := r[k].(lost := r[k].lost + 1, matched := false)];
    }
  }

  /** The nearest-track loop for one detection. */
  method FindNearest(dist: real, ts: seq<Track>, s: Sight) returns (best: int)
    ensures best == Choose(dist, ts, s)
    ensures IsNearest(Bound(dist), Places(ts), Taken(ts), s.at, |ts|, best)
  {
    hide Dist2, IsNearest;
    NearestIs(Bound(dist), Places(ts), Taken(ts), s.at, |ts|);
    best := -1;
    var bd := Bound(dist);
    for k := 0 to |ts|
      invariant (best, bd) == Nearest(Bound(dist), Places(ts), Taken(ts), s.at, k)
    {
      if ts[k].matched { continue; }
      var dd := Dist2(ts[k].at, s.at);
      if dd < bd { bd, best := dd, k; }
    }
  }

  /** One detection: refresh the nearest track or start a new one. */
  method Associate(dist: real, ghost now: int, ts: seq<Track>, ghost hist: seq<History>, s: Sight)
    returns (best: int, r: seq<Track>, ghost h: seq<History>)
    requires |ts| == |hist|
    ensures best == Choose(dist, ts, s)
    ensures IsNearest(Bound(dist), Places(ts), Taken(ts), s.at, |ts|, best)
    ensures r == AssocOne(dist, now, Tracks(ts, hist), s).tracks && h == AssocOne(dist, now, Tracks(ts, hist), s).hist
  {
    hide Choose, IsNearest;
    best := FindNearest(dist, ts, s);
    if best >= 0 {
      var t := ts[best];
      r := ts[best := Track(s.at, t.age + 1, 0, if s.supported then t.sup + 1 else 0, true, s.src)];
      h := hist[best := hist[best] + [Sighting(now, s)]];
    } else {
      r := ts + [Track(s.at, 1, 0, if s.supported then 1 else 0, true, s.src)];
      h := hist + [[Sighting(now, s)]];
    }
  }

  /** The loop that keeps the tracks not lost for too long. */
  method ReapLost(maxLost: int, ts: seq<Track>, ghost hist: seq<History>)
    returns (keep: seq<Track>, ghost h: seq<History>)
    requires |ts| == |hist|
    ensures keep == Reap(maxLost, Tracks(ts, hist)).tracks && h == Reap(maxLost, Tracks(ts, hist)).hist
  {
    keep := [];
    for k := 0 to |ts|
      invariant keep == Pick(ts, Kept(maxLost, ts, k))
    {
      if ts[k].lost <= maxLost { keep := keep + [ts[k]]; }
    }
    h := Pick(hist, Kept(maxLost, ts, |ts|));
  }
}
