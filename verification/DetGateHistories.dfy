/** The detection gate said of its histories alone: where each detection of a run goes, exactly when the
    gate confirms, what its motion points are, and where its active area lies. */
module DetGateHistories {
  import opened Association
  import opened Assignments
  import opened DetGates
  import opened GateTracks
  import opened Reals
  import opened Sequences
  import Clustering

  lemma StepGoesToNearest(cfg: Cfg, st: State, x: Input)
    requires StateOk(cfg, st) && !st.locked && IsOrder(x.order, Confs(x.aug))
    ensures forall j :: 0 <= j < |x.order| ==> x.order[j] < |AllSights(cfg, x.motion, x.aug)|
    ensures IsSearched(GateParams(cfg), |st.frames|, st.tk.hist, Pick(AllSights(cfg, x.motion, x.aug), x.order),
                       Step(cfg, st, x).0.tk.hist)
  {
    SightsAreTheFrames(cfg, x.motion, x.aug, x.order);
    hide AllOk, Fresh, AllSeen, IsSearched, Search, IsOrder, Select, AllSights, LastSize;
    SearchGoesToNearest(GateParams(cfg), |st.frames|, st.tk, Pick(AllSights(cfg, x.motion, x.aug), x.order));
  }

  /** In every run each detection that a search update processes, in the order of falling confidence,
      goes to the earliest of the nearest tracks without a detection in this frame, and starts a new
      track exactly when none is in range. */
  lemma EachGoesToNearest(cfg: Cfg, s0: State, xs: seq<Input>, n: nat)
    requires n < |xs| && IsReset(s0) && InputsOk(cfg, xs) && !After(cfg, s0, xs, n).locked
    ensures IsOrder(xs[n].order, Confs(xs[n].aug))
    ensures forall j :: 0 <= j < |xs[n].order| ==> xs[n].order[j] < |AllSights(cfg, xs[n].motion, xs[n].aug)|
    ensures IsSearched(GateParams(cfg), n, After(cfg, s0, xs, n).tk.hist,
                       Pick(AllSights(cfg, xs[n].motion, xs[n].aug), xs[n].order),
                       After(cfg, s0, xs, n + 1).tk.hist)
  {
    AfterNext(cfg, s0, xs, n);
    FramesCount(cfg, s0, xs, n);
    hide Step, StateOk, IsSearched, AllSights, After, IsOrder;
    StepGoesToNearest(cfg, After(cfg, s0, xs, n), xs[n]);
  }

  // ---------------------------------------------------------------- when the gate confirms

  /** The history ends in this frame inside the active area, with the age and the support demanded. */
  predicate IsConfirmable(cfg: Cfg, fw: int, fh: int, now: int, h: History) {
    IsProven(cfg.amin, cfg.ksup, now, h) && InActive(cfg, fw, fh, h[|h| - 1].s.at)
  }

  ghost predicate HasConfirmable(cfg: Cfg, fw: int, fh: int, now: int, hs: seq<History>) {
    exists k :: 0 <= k < |hs| && IsConfirmable(cfg, fw, fh, now, hs[k])
  }

  lemma EligibleIsConfirmable(cfg: Cfg, fw: int, fh: int, now: int, tk: Tracks, k: nat)
    requires AllOk(GateParams(cfg), now, tk) && k < |tk.tracks|
    ensures Eligible(cfg, fw, fh, tk.tracks[k]) <==> IsConfirmable(cfg, fw, fh, now, tk.hist[k])
  {
    assert TrackOk(GateParams(cfg), now, tk.tracks[k], tk.hist[k]);
    CountersDecide(GateParams(cfg), now, tk.tracks[k], tk.hist[k], cfg.amin, cfg.ksup);
    TrackShowsHistory(GateParams(cfg), now, tk.tracks[k], tk.hist[k]);
    hide TrackOk, AllOk, InActive, TailSupported;
  }

  lemma SomeEligible(cfg: Cfg, fw: int, fh: int, now: int, tk: Tracks)
    requires AllOk(GateParams(cfg), now, tk)
    ensures (exists j :: 0 <= j < |tk.tracks| && Eligible(cfg, fw, fh, tk.tracks[j]))
       <==> HasConfirmable(cfg, fw, fh, now, tk.hist)
  {
    assert |tk.tracks| == |tk.hist|;
    forall k: nat | k < |tk.tracks|
      ensures Eligible(cfg, fw, fh, tk.tracks[k]) <==> IsConfirmable(cfg, fw, fh, now, tk.hist[k])
    {
      EligibleIsConfirmable(cfg, fw, fh, now, tk, k);
    }
    hide AllOk, Eligible, IsConfirmable;
  }

  lemma SearchStepConfirms(cfg: Cfg, st: State, x: Input)
    requires StateOk(cfg, st) && !st.locked && InputOk(cfg, x) && SourcesOk(x.dets)
    ensures Step(cfg, st, x).0.locked <==> HasConfirmable(cfg, x.fw, x.fh, |st.frames|, Step(cfg, st, x).0.tk.hist)
  {
    SearchReturns(cfg, st, x);
    SearchedOk(cfg, st, x);
    var tk := Searched(cfg, st, x);
    SomeEligible(cfg, x.fw, x.fh, |st.frames|, tk);
    SearchKeepsTracks(cfg, st, x);
    hide Step, Searched, AllOk, Eligible, HasConfirmable, InputOk, StateOk, IsBlobBox, Justified, IsDetection;
  }

  lemma SearchKeepsTracks(cfg: Cfg, st: State, x: Input)
    requires |st.tk.tracks| == |st.tk.hist| && !st.locked && IsOrder(x.order, Confs(x.aug))
    ensures Step(cfg, st, x).0.tk == Searched(cfg, st, x)
  {
    hide Searched, Select, LastSize, AllSights, IsOrder;
  }

  /** In every run an unlocked update confirms exactly when some track's history ends in this frame, inside
      the active area, with the age and the support demanded. */
  lemma ConfirmsExactly(cfg: Cfg, s0: State, xs: seq<Input>, n: nat)
    requires n < |xs| && IsReset(s0) && InputsOk(cfg, xs) && !After(cfg, s0, xs, n).locked
    ensures var g := After(cfg, s0, xs, n + 1);
            g.locked <==> HasConfirmable(cfg, xs[n].fw, xs[n].fh, n, g.tk.hist)
  {
    AfterNext(cfg, s0, xs, n);
    FramesCount(cfg, s0, xs, n);
    hide Step, StateOk, HasConfirmable, After, InputOk, SourcesOk;
    SearchStepConfirms(cfg, After(cfg, s0, xs, n), xs[n]);
  }

  // ---------------------------------------------------------------- the motion points

  function Spots(motion: seq<MotionSample>): (r: seq<Point>)
    ensures |r| == |motion| && forall k :: 0 <= k < |r| ==> r[k] == motion[k].at
  {
    seq(|motion|, k requires 0 <= k < |motion| => motion[k].at)
  }

  /** idx lists the samples whose residual reaches the threshold, and pts their places. */
  predicate AreMoving(cfg: Cfg, motion: seq<MotionSample>, pts: seq<Point>, idx: seq<nat>) {
    && Picks(pts, Spots(motion), idx)
    && forall k :: 0 <= k < |motion| ==> (k in idx <==> motion[k].resid >= cfg.motionRmin)
  }

  lemma MovingPrefix(cfg: Cfg, motion: seq<MotionSample>, k: nat)
    requires k <= |motion|
    ensures MovingPoints(cfg, motion, k) == MovingPoints(cfg, motion[..k], k)
    decreases k
  {
    if k == 0 {
    } else {
      MovingPrefix(cfg, motion, k - 1);
      MovingPrefix(cfg, motion[..k], k - 1);
      assert motion[..k][..k - 1] == motion[..k - 1];
    }
  }

  lemma MovingLast(cfg: Cfg, motion: seq<MotionSample>)
    requires motion != []
    ensures var n := |motion| - 1;
            MovingPoints(cfg, motion, |motion|)
            == MovingPoints(cfg, motion[..n], n) + (if motion[n].resid >= cfg.motionRmin then [motion[n].at] else [])
  {
    MovingPrefix(cfg, motion, |motion| - 1);
  }

  /** What the blob is built from: the place of each sample that moves enough, once and in order. */
  lemma {:induction false} MovingPointsMove(cfg: Cfg, motion: seq<MotionSample>) returns (idx: seq<nat>)
    ensures AreMoving(cfg, motion, MovingPoints(cfg, motion, |motion|), idx)
  {
    if motion == [] {
      idx := [];
    } else {
      var n := |motion| - 1;
      idx := MovingPointsMove(cfg, motion[..n]);
      MovingLast(cfg, motion);
      hide MovingPoints;
      if motion[n].resid >= cfg.motionRmin { idx := idx + [n]; }
    }
  }

  lemma {:induction false} StillSamplesDoNotCount(cfg: Cfg, motion: seq<MotionSample>, k: nat)
    requires k < |motion| && motion[k].resid < cfg.motionRmin
    ensures MovingPoints(cfg, Without(motion, k), |motion| - 1) == MovingPoints(cfg, motion, |motion|)
  {
    var w := Without(motion, k);
    MovingLast(cfg, motion);
    WithoutLast(motion, k);
    hide MovingPoints, Without;
    if k == |motion| - 1 {
    } else {
      MovingLast(cfg, w);
      StillSamplesDoNotCount(cfg, motion[..|motion| - 1], k);
    }
  }

  /** A sample below the threshold changes neither whether there is a blob nor which. */
  lemma StillSampleChangesNothing(cfg: Cfg, motion: seq<MotionSample>, k: nat, d: GateDet)
    requires k < |motion| && motion[k].resid < cfg.motionRmin
    ensures HasBlob(cfg, Without(motion, k)) <==> HasBlob(cfg, motion)
    ensures IsBlob(cfg, Without(motion, k), d) <==> IsBlob(cfg, motion, d)
  {
    hide MovingPoints, Without;
    StillSamplesDoNotCount(cfg, motion, k);
  }

  /** When no sample moves enough there is no blob. */
  lemma StillFrameHasNoBlob(cfg: Cfg, motion: seq<MotionSample>)
    requires forall k :: 0 <= k < |motion| ==> motion[k].resid < cfg.motionRmin
    ensures !HasBlob(cfg, motion)
  {
    NothingMoves(cfg, motion, |motion|);
  }

  lemma {:induction false} NothingMoves(cfg: Cfg, motion: seq<MotionSample>, k: nat)
    requires k <= |motion| && forall j :: 0 <= j < k ==> motion[j].resid < cfg.motionRmin
    ensures MovingPoints(cfg, motion, k) == []
  {
    if k == 0 {
    } else {
      NothingMoves(cfg, motion, k - 1);
    }
  }

  /** The detection a blob is turned into has the blob's box, centre and size. */
  lemma BlobKeepsItsBox(cfg: Cfg, e: Clustering.Extent)
    ensures var d := BlobDet(cfg, e);
            && d.at.x - d.w / 2.0 == e.x0 && d.at.x + d.w / 2.0 == e.x1
            && d.at.y - d.h / 2.0 == e.y0 && d.at.y + d.h / 2.0 == e.y1
            && d.conf == cfg.confsky && d.src < 0
  {
  }

  // ---------------------------------------------------------------- the active area

  /** The distance of v from the middle of a side, against half the side less the border. */
  predicate NearMiddle(v: real, side: real, border: real) {
    var off := if v >= side / 2.0 then v - side / 2.0 else side / 2.0 - v;
    off <= side / 2.0 - border * side
  }

  /** With a border, a point is active exactly when it is no farther from the middle of the frame, in either
      direction, than half the frame less that fraction of it. */
  lemma ActiveIsNearMiddle(cfg: Cfg, fw: int, fh: int, at: Point)
    requires cfg.borderfrac > 0.0 && fw > 0 && fh > 0
    ensures InActive(cfg, fw, fh, at)
       <==> NearMiddle(at.x, fw as real, cfg.borderfrac) && NearMiddle(at.y, fh as real, cfg.borderfrac)
  {
    assert Times(cfg.borderfrac, fw as real) == cfg.borderfrac * (fw as real);
    assert Times(cfg.borderfrac, fh as real) == cfg.borderfrac * (fh as real);
  }
}
