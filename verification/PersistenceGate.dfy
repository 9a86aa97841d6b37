/** Track-before-detect confirmation: persistence_gate.hpp. */
module PersistenceGates {
  import opened Association
  import opened GateTracks
  import opened MovingLock

  datatype Detection = Detection(at: Point, conf: real, supported: bool)

  function ToSight(d: Detection, i: nat): Sight {
    Sight(d.at, 0.0, 0.0, d.conf, d.supported, i)
  }

  /** The frame's detections, each with its index. */
  function AllSights(dets: seq<Detection>): (r: seq<Sight>)
    ensures |r| == |dets| && forall i :: 0 <= i < |r| ==> r[i] == ToSight(dets[i], i)
  {
    seq(|dets|, i requires 0 <= i < |dets| => ToSight(dets[i], i))
  }

  function Confs(dets: seq<Detection>): (r: seq<real>)
    ensures |r| == |dets| && forall i :: 0 <= i < |r| ==> r[i] == dets[i].conf
  {
    seq(|dets|, i requires 0 <= i < |dets| => dets[i].conf)
  }

  function Centres(dets: seq<Detection>): (r: seq<Point>)
    ensures |r| == |dets| && forall i :: 0 <= i < |r| ==> r[i] == dets[i].at
  {
    seq(|dets|, i requires 0 <= i < |dets| => dets[i].at)
  }

  /** `frames` are the detections of every update since the last reset. */
  datatype State =
    State(tk: Tracks, frames: seq<seq<Sight>>, locked: bool, lockLost: int, at: Point)

  predicate Ready(p: Params, t: Track) {
    t.lost == 0 && t.age >= p.minAge && t.sup >= p.minSupport
  }

  /** The first ready track at or after k, or -1. */
  function FirstReady(p: Params, ts: seq<Track>, k: nat): (r: int)
    requires k <= |ts|
    ensures r == -1 || (k <= r < |ts| && Ready(p, ts[r]))
    ensures forall j :: k <= j < (if r < 0 then |ts| else r) ==> !Ready(p, ts[j])
    decreases |ts| - k
  {
    if k == |ts| then -1 else if Ready(p, ts[k]) then k else FirstReady(p, ts, k + 1)
  }

  function SearchStep(p: Params, st: State, dets: seq<Detection>, order: seq<nat>): (State, int)
    requires |st.tk.tracks| == |st.tk.hist| && IsOrder(order, Confs(dets))
  {
    var all := AllSights(dets);
    var tk := Search(p, |st.frames|, st.tk, Pick(all, order));
    var c := FirstReady(p, tk.tracks, 0);
    if c >= 0 then (State(tk, st.frames + [all], true, 0, tk.tracks[c].at), tk.tracks[c].src)
    else (State(tk, st.frames + [all], false, st.lockLost, st.at), -1)
  }

  function LockedStep(p: Params, st: State, dets: seq<Detection>): (State, int) {
    var frames := st.frames + [AllSights(dets)];
    var l := Follow(Bound(p.dist), st.at, Centres(dets), |dets|);
    if l.best >= 0 then (State(st.tk, frames, true, 0, l.at), l.best)
    else if st.lockLost + 1 > p.maxLost then (State(NONE, frames, false, st.lockLost + 1, l.at), -1)
    else (State(st.tk, frames, true, st.lockLost + 1, l.at), -1)
  }

  function Step(p: Params, st: State, dets: seq<Detection>, order: seq<nat>): (State, int)
    requires |st.tk.tracks| == |st.tk.hist| && IsOrder(order, Confs(dets))
  {
    if st.locked then LockedStep(p, st, dets) else SearchStep(p, st, dets, order)
  }

  // ---------------------------------------------------------------- what a run keeps

  predicate StateOk(p: Params, st: State) {
    && |st.tk.tracks| == |st.tk.hist|
    && (!st.locked ==> AllOk(p, |st.frames| - 1, st.tk) && Fresh(p, st.tk.tracks) && AllSeen(st.tk, st.frames))
  }

  lemma StepOk(p: Params, st: State, dets: seq<Detection>, order: seq<nat>)
    requires StateOk(p, st) && IsOrder(order, Confs(dets))
    ensures StateOk(p, Step(p, st, dets, order).0)
    ensures Step(p, st, dets, order).0.frames == st.frames + [AllSights(dets)]
  {
    hide AllOk, Fresh, AllSeen, Search, IsOrder, FirstReady, Follow, AllSights;
    if st.locked {
      NoneOk(p, |st.frames|, st.frames + [AllSights(dets)]);
    } else {
      SightsAreTheFrames(dets, order);
      SearchOk(p, st.tk, Pick(AllSights(dets), order), st.frames, AllSights(dets));
    }
  }

  lemma SightsAreTheFrames(dets: seq<Detection>, order: seq<nat>)
    requires IsOrder(order, Confs(dets))
    ensures forall j :: 0 <= j < |order| ==> order[j] < |AllSights(dets)|
    ensures forall j :: 0 <= j < |order| ==> Pick(AllSights(dets), order)[j] in AllSights(dets)
    ensures DistinctSources(Pick(AllSights(dets), order))
  {
    hide Falling;
  }

  lemma NoneOk(p: Params, now: int, frames: seq<seq<Sight>>)
    ensures AllOk(p, now, NONE) && Fresh(p, NONE.tracks) && AllSeen(NONE, frames)
  {
  }

  // ---------------------------------------------------------------- confirmation

  /** A history that justifies returning detection r of the latest frame. */
  predicate IsEvidence(p: Params, h: History, frames: seq<seq<Sight>>, r: int) {
    && |h| >= 1 && |h| >= p.minAge && |h| >= p.minSupport
    && Chained(p, h) && Seen(h, frames) && TailSupported(h, p.minSupport)
    && h[|h| - 1].frame == |frames| - 1 && h[|h| - 1].s.src == r
  }

  ghost predicate HasEvidence(p: Params, frames: seq<seq<Sight>>, r: int) {
    exists h :: IsEvidence(p, h, frames, r)
  }

  lemma ReadyIsEvidence(p: Params, t: Track, h: History, frames: seq<seq<Sight>>)
    requires TrackOk(p, |frames| - 1, t, h) && Seen(h, frames) && Ready(p, t)
    ensures IsEvidence(p, h, frames, t.src)
  {
    hide Chained, Seen;
  }

  /** A detection first returned by an unlocked gate has the age and support demanded, frame by frame. */
  lemma ConfirmationHasEvidence(p: Params, st: State, dets: seq<Detection>, order: seq<nat>)
    requires StateOk(p, st) && !st.locked && IsOrder(order, Confs(dets))
    requires Step(p, st, dets, order).0.locked
    ensures var (g, r) := Step(p, st, dets, order);
            0 <= r < |dets| && g.at == dets[r].at && HasEvidence(p, g.frames, r)
  {
    hide AllSights, Search, IsOrder, Fresh;
    var all := AllSights(dets);
    var frames := st.frames + [all];
    SightsAreTheFrames(dets, order);
    SearchOk(p, st.tk, Pick(all, order), st.frames, all);
    var tk := Search(p, |st.frames|, st.tk, Pick(all, order));
    var c := FirstReady(p, tk.tracks, 0);
    assert TrackOk(p, |frames| - 1, tk.tracks[c], tk.hist[c]) && Seen(tk.hist[c], frames);
    ReadyIsEvidence(p, tk.tracks[c], tk.hist[c], frames);
    LastSighting(tk.hist[c], frames, dets);
    LastIsTrack(p, |frames| - 1, tk.tracks[c], tk.hist[c]);
  }

  lemma LastIsTrack(p: Params, now: int, t: Track, h: History)
    requires TrackOk(p, now, t, h)
    ensures h != [] && h[|h| - 1].s.at == t.at && h[|h| - 1].s.src == t.src
  {
  }

  lemma LastSighting(h: History, frames: seq<seq<Sight>>, dets: seq<Detection>)
    requires h != [] && frames != [] && frames[|frames| - 1] == AllSights(dets)
    requires Seen(h, frames) && h[|h| - 1].frame == |frames| - 1
    ensures var s := h[|h| - 1].s; 0 <= s.src < |dets| && s.at == dets[s.src].at
  {
    var s := h[|h| - 1].s;
    assert s in AllSights(dets);
  }

  /** The histories visit strictly increasing frames. */
  lemma {:induction false} FramesIncrease(p: Params, h: History, i: nat, j: nat)
    requires Chained(p, h) && i < j < |h|
    ensures h[i].frame < h[j].frame
  {
    if i >= j - 1 {
    } else {
      FramesIncrease(p, h, i, j - 1);
    }
    assert h[j - 1].frame < h[j - 1 + 1].frame;
  }

  // ---------------------------------------------------------------- runs

  predicate OrdersOk(frames: seq<seq<Detection>>, orders: seq<seq<nat>>) {
    |orders| == |frames| && forall n :: 0 <= n < |frames| ==> IsOrder(orders[n], Confs(frames[n]))
  }

  const START := State(NONE, [], false, 0, Point.Point(0.0, 0.0))

  /** The gate after n updates from a reset. */
  ghost function After(p: Params, frames: seq<seq<Detection>>, orders: seq<seq<nat>>, n: nat): (st: State)
    requires n <= |frames| && OrdersOk(frames, orders)
    ensures StateOk(p, st) && |st.frames| == n
  {
    if n == 0 then NoneOk(p, -1, []); START
    else
      var st := After(p, frames, orders, n - 1);
      StepOk(p, st, frames[n - 1], orders[n - 1]);
      Step(p, st, frames[n - 1], orders[n - 1]).0
  }

  lemma AfterNext(p: Params, frames: seq<seq<Detection>>, orders: seq<seq<nat>>, n: nat)
    requires n < |frames| && OrdersOk(frames, orders)
    ensures IsOrder(orders[n], Confs(frames[n]))
    ensures StateOk(p, After(p, frames, orders, n)) && |After(p, frames, orders, n).frames| == n
    ensures After(p, frames, orders, n + 1) == Step(p, After(p, frames, orders, n), frames[n], orders[n]).0
  {
    hide Step, IsOrder, StateOk;
  }

  /** What update returns for frame n. */
  ghost function ResultAt(p: Params, frames: seq<seq<Detection>>, orders: seq<seq<nat>>, n: nat): int
    requires n < |frames| && OrdersOk(frames, orders)
  {
    Step(p, After(p, frames, orders, n), frames[n], orders[n]).1
  }

  lemma {:induction false} FramesAreRecorded(p: Params, frames: seq<seq<Detection>>, orders: seq<seq<nat>>, n: nat)
    requires n <= |frames| && OrdersOk(frames, orders)
    ensures forall i :: 0 <= i < n ==> After(p, frames, orders, n).frames[i] == AllSights(frames[i])
  {
    hide Step, StateOk, AllSights;
    if n == 0 {
    } else {
      FramesAreRecorded(p, frames, orders, n - 1);
      StepOk(p, After(p, frames, orders, n - 1), frames[n - 1], orders[n - 1]);
    }
  }

  /** In every run: when the unlocked gate first returns an index, that detection ends a history of
      detections of the run's own frames with the age, the support, the steps and the gaps demanded. */
  lemma FirstReturnHasEvidence(p: Params, frames: seq<seq<Detection>>, orders: seq<seq<nat>>, n: nat)
    requires n < |frames| && OrdersOk(frames, orders) && !After(p, frames, orders, n).locked
    ensures var r := ResultAt(p, frames, orders, n);
            var g := After(p, frames, orders, n + 1);
            && (r == -1 <==> !g.locked)
            && (r != -1 ==> 0 <= r < |frames[n]| && g.at == frames[n][r].at && HasEvidence(p, g.frames, r))
    ensures forall i :: 0 <= i <= n ==> After(p, frames, orders, n + 1).frames[i] == AllSights(frames[i])
  {
    FramesAreRecorded(p, frames, orders, n + 1);
    var st := After(p, frames, orders, n);
    if Step(p, st, frames[n], orders[n]).0.locked { ConfirmationHasEvidence(p, st, frames[n], orders[n]); }
    hide Search, StateOk, HasEvidence, AllSights;
  }

  lemma SearchStepTracks(p: Params, st: State, dets: seq<Detection>, order: seq<nat>)
    requires StateOk(p, st) && !st.locked && IsOrder(order, Confs(dets))
    ensures AllOk(p, |st.frames| - 1, st.tk) && Fresh(p, st.tk.tracks)
    ensures forall j :: 0 <= j < |order| ==> order[j] < |AllSights(dets)|
    ensures |Pick(AllSights(dets), order)| == |dets|
    ensures Step(p, st, dets, order).0.tk == Search(p, |st.frames|, st.tk, Pick(AllSights(dets), order))
  {
    hide Search, FirstReady, AllOk, Fresh, AllSeen, Falling;
  }

  lemma StepOneToOne(p: Params, st: State, dets: seq<Detection>, order: seq<nat>)
    requires StateOk(p, st) && !st.locked && IsOrder(order, Confs(dets))
    ensures forall j :: 0 <= j < |order| ==> order[j] < |AllSights(dets)|
    ensures var sights := Pick(AllSights(dets), order);
            OneToOne(Step(p, st, dets, order).0.tk.tracks, sights, |sights|) <==> p.maxLost >= 0 || dets == []
  {
    hide *;
    SightsAreTheFrames(dets, order);
    SearchStepTracks(p, st, dets, order);
    SearchOneToOne(p, |st.frames|, st.tk, Pick(AllSights(dets), order));
  }

  /** After each search update the tracks just seen are in bijection with the frame's detections. */
  lemma SeenTracksAreTheDetections(p: Params, frames: seq<seq<Detection>>, orders: seq<seq<nat>>, n: nat)
    requires n < |frames| && OrdersOk(frames, orders) && !After(p, frames, orders, n).locked
    ensures var sights := Pick(AllSights(frames[n]), orders[n]);
            OneToOne(After(p, frames, orders, n + 1).tk.tracks, sights, |sights|)
            <==> p.maxLost >= 0 || frames[n] == []
  {
    hide Step, OneToOne, StateOk;
    StepOneToOne(p, After(p, frames, orders, n), frames[n], orders[n]);
  }

  /** Exactly one track was seen in this frame with source i, and it stands at `at`. */
  predicate HasItsTrack(ts: seq<Track>, i: int, at: Point) {
    && (exists k :: 0 <= k < |ts| && ts[k].lost == 0 && ts[k].src == i && ts[k].at == at)
    && forall k, l :: 0 <= k < l < |ts| && ts[k].lost == 0 && ts[l].lost == 0 ==> !(ts[k].src == i && ts[l].src == i)
  }

  lemma SightHasItsTrack(ts: seq<Track>, sights: seq<Sight>, j: nat)
    requires j < |sights| && OneToOne(ts, sights, |sights|)
    ensures HasItsTrack(ts, sights[j].src, sights[j].at)
  {
    assert Owned(ts, sights[j]);
  }

  /** In every run each detection of a search frame is processed once and ends up as the place and the
      source of exactly one track. */
  lemma DetectionHasItsTrack(p: Params, frames: seq<seq<Detection>>, orders: seq<seq<nat>>, n: nat, i: nat)
    requires n < |frames| && OrdersOk(frames, orders) && !After(p, frames, orders, n).locked
    requires p.maxLost >= 0 && i < |frames[n]|
    ensures Once(orders[n], i)
    ensures HasItsTrack(After(p, frames, orders, n + 1).tk.tracks, i, frames[n][i].at)
  {
    EachIndexOnce(orders[n], |frames[n]|, i);
    SeenTracksAreTheDetections(p, frames, orders, n);
    var j :| 0 <= j < |orders[n]| && orders[n][j] == i;
    hide After, OneToOne, HasItsTrack;
    SightHasItsTrack(After(p, frames, orders, n + 1).tk.tracks, Pick(AllSights(frames[n]), orders[n]), j);
  }

  // ---------------------------------------------------------------- the lock

  /** A locked update returns -1 exactly when no detection is near the lock, and otherwise moves the
      lock onto the detection it returns. */
  lemma LockedReturns(p: Params, st: State, dets: seq<Detection>, order: seq<nat>)
    requires st.locked && |st.tk.tracks| == |st.tk.hist| && IsOrder(order, Confs(dets))
    ensures var (g, r) := Step(p, st, dets, order);
            && (r == -1 <==> Miss(p.dist, st.at, Centres(dets)))
            && (r != -1 ==> 0 <= r < |dets| && g.locked && g.lockLost == 0 && g.at == dets[r].at)
            && (r != -1 ==> IsLockResult(Bound(p.dist), st.at, Centres(dets), r))
            && (r == -1 ==> g.at == st.at && g.lockLost == st.lockLost + 1
                            && (g.locked <==> g.lockLost <= p.maxLost))
  {
    FollowMisses(p.dist, st.at, Centres(dets));
    FollowIsLockResult(Bound(p.dist), st.at, Centres(dets));
    hide Follow, Bound, Miss, SearchStep, AllSights, IsLockResult;
  }

  /** From a fresh lock, misses in a row keep the lock in place up to maxLost of them, and the next
      one releases it. With a maxLost below zero the first miss already does. */
  lemma {:induction false} LockLifetime(p: Params, frames: seq<seq<Detection>>, orders: seq<seq<nat>>, m: nat, j: nat)
    requires m + j <= |frames| && OrdersOk(frames, orders)
    requires After(p, frames, orders, m).locked && After(p, frames, orders, m).lockLost == 0
    requires forall i :: m <= i < m + j ==> Miss(p.dist, After(p, frames, orders, m).at, Centres(frames[i]))
    requires j == 0 || j - 1 <= p.maxLost || j == 1
    ensures var g := After(p, frames, orders, m + j);
            && g.at == After(p, frames, orders, m).at && g.lockLost == j
            && (g.locked <==> j == 0 || j <= p.maxLost)
  {
    hide Step, Miss, StateOk;
    if j == 0 {
    } else {
      LockLifetime(p, frames, orders, m, j - 1);
      var st := After(p, frames, orders, m + j - 1);
      assert |st.tk.tracks| == |st.tk.hist| by { StateShape(p, st); }
      LockedReturns(p, st, frames[m + j - 1], orders[m + j - 1]);
    }
  }

  lemma StateShape(p: Params, st: State)
    requires StateOk(p, st)
    ensures |st.tk.tracks| == |st.tk.hist|
  {
  }

  // ---------------------------------------------------------------- the class

  class PersistenceGate {
    const params: Params
    var tracks: seq<Track>
    var locked: bool
    var lockLost: int
    var lockAt: Point
    ghost var hist: seq<History>
    ghost var frames: seq<seq<Sight>>

    ghost function Contents(): State
      reads this
    {
      State(Tracks(tracks, hist), frames, locked, lockLost, lockAt)
    }

    ghost predicate Valid()
      reads this
    {
      StateOk(params, Contents())
    }

    constructor (params: Params)
      ensures this.params == params && Valid() && Contents() == START
    {
      this.params := params;
      tracks, locked, lockLost, lockAt := [], false, 0, Point.Point(0.0, 0.0);
      hist, frames := [], [];
    }

    method Reset()
      modifies this
      ensures Valid() && Contents() == START.(at := old(lockAt))
    {
      tracks, locked, lockLost := [], false, 0;
      hist, frames := [], [];
    }

    /** update; `order` is what the sort by confidence produced. */
    method Update(dets: seq<Detection>) returns (r: int, ghost order: seq<nat>)
      requires Valid()
      modifies this
      ensures Valid() && IsOrder(order, Confs(dets))
      ensures (Contents(), r) == Step(params, old(Contents()), dets, order)
    {
      hide Search, Follow, StateOk, IsOrder;
      StateShape(params, Contents());
      ghost var example := OrderExists(Confs(dets));
      var o: seq<nat> :| IsOrder(o, Confs(dets));
      order := o;
      StepOk(params, Contents(), dets, o);
      if locked {
        r := UpdateLocked(dets);
      } else {
        SearchTracks(dets, o);
        r := LockFirstReady();
      }
    }

    /** The association part of a search update. */
    method SearchTracks(dets: seq<Detection>, order: seq<nat>)
      requires |tracks| == |hist| && IsOrder(order, Confs(dets))
      modifies this`tracks, this`hist, this`frames
      ensures Tracks(tracks, hist)
              == Search(params, |old(frames)|, old(Tracks(tracks, hist)), Pick(AllSights(dets), order))
      ensures frames == old(frames) + [AllSights(dets)]
    {
      hide AssocOne, Reap, Falling;
      ghost var begin := Begin(Tracks(tracks, hist));
      ghost var sights := Pick(AllSights(dets), order);
      var ts := AgeAll(tracks);
      ghost var h := hist;
      for i := 0 to |order|
        invariant |ts| == |h| && frames == old(frames)
        invariant Tracks(ts, h) == Assoc(params.dist, |frames|, begin, sights, i)
      {
        var best;
        best, ts, h := Associate(params.dist, |frames|, ts, h, ToSight(dets[order[i]], order[i]));
      }
      tracks, hist := ReapLost(params.maxLost, ts, h);
      frames := frames + [AllSights(dets)];
    }

    /** The confirmation loop: the first ready track takes the lock. */
    method LockFirstReady() returns (r: int)
      requires !locked
      modifies this`locked, this`lockLost, this`lockAt
      ensures var c := FirstReady(params, tracks, 0);
              if c >= 0 then locked && lockLost == 0 && lockAt == tracks[c].at && r == tracks[c].src
              else !locked && lockLost == old(lockLost) && lockAt == old(lockAt) && r == -1
    {
      for k := 0 to |tracks|
        invariant FirstReady(params, tracks, 0) == FirstReady(params, tracks, k)
        invariant !locked && lockLost == old(lockLost) && lockAt == old(lockAt)
      {
        var t := tracks[k];
        if t.lost == 0 && t.age >= params.minAge && t.sup >= params.minSupport {
          locked, lockLost, lockAt := true, 0, t.at;
          return t.src;
        }
      }
      return -1;
    }

    /** The locked scan: each accepted detection moves the lock at once. */
    method UpdateLocked(dets: seq<Detection>) returns (r: int)
      requires locked && |tracks| == |hist|
      modifies this
      ensures (Contents(), r) == LockedStep(params, old(Contents()), dets)
    {
      hide Dist2, Bound;
      var best, bd := -1, Bound(params.dist);
      frames := frames + [AllSights(dets)];
      ghost var st := old(Contents());
      for i := 0 to |dets|
        invariant Lock(best, bd, lockAt) == Follow(Bound(params.dist), st.at, Centres(dets), i)
        invariant Contents() == st.(frames := st.frames + [AllSights(dets)], at := lockAt)
      {
        var dd := Dist2(lockAt, dets[i].at);
        if dd < bd { bd, best, lockAt := dd, i, dets[i].at; }
      }
      if best >= 0 {
        lockLost := 0;
        return best;
      }
      lockLost := lockLost + 1;
      if lockLost > params.maxLost {
        locked, tracks := false, [];
        hist := [];
      }
      return -1;
    }
  }
}
