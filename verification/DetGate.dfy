/** Motion-gated confirmation of detections: detgate.hpp. */
module DetGates {
  import opened Options
  import opened Reals
  import opened Association
  import opened GateTracks
  import opened MovingLock
  import Clustering

  datatype GateDet = GateDet(at: Point, w: real, h: real, conf: real, src: int)

  datatype MotionSample = MotionSample(at: Point, resid: real)

  datatype Cfg =
    Cfg(rmin: real, dist: real, amin: int, ksup: int, maxlost: int, borderfrac: real, sampleRad: real,
        seedOnMotion: bool, motionSilent: int, motionRmin: real, motionMinpts: int, motionCell: real, confsky: real)

  const MOTION_SENTINEL := -100
  const SYNTH_CONFIRM := -2

  /** The extreme starting values of the blob's box. */
  const BIG: real := 1e30

  function GateParams(cfg: Cfg): Params {
    Params(cfg.dist, cfg.amin, cfg.ksup, cfg.maxlost)
  }

  // ---------------------------------------------------------------- motion support

  predicate InReach(cfg: Cfg, m: MotionSample, at: Point) {
    Dist2(m.at, at) <= Square(cfg.sampleRad)
  }

  /** The largest residual in reach among the first k samples, at least zero. */
  function SampleMax(cfg: Cfg, motion: seq<MotionSample>, at: Point, k: nat): real
    requires k <= |motion|
  {
    if k == 0 then 0.0
    else
      var best := SampleMax(cfg, motion, at, k - 1);
      var m := motion[k - 1];
      if InReach(cfg, m, at) && best < m.resid then m.resid else best
  }

  predicate Moved(cfg: Cfg, motion: seq<MotionSample>, at: Point) {
    SampleMax(cfg, motion, at, |motion|) >= cfg.rmin
  }

  /** A detection is supported when some sample in reach has a residual of at least rmin; with an
      rmin of zero or less everything is. */
  lemma {:induction false} MovedMeans(cfg: Cfg, motion: seq<MotionSample>, at: Point, k: nat)
    requires k <= |motion|
    ensures SampleMax(cfg, motion, at, k) >= cfg.rmin
            <==> cfg.rmin <= 0.0 || exists i :: 0 <= i < k && InReach(cfg, motion[i], at) && motion[i].resid >= cfg.rmin
    ensures forall i :: 0 <= i < k && InReach(cfg, motion[i], at) ==> motion[i].resid <= SampleMax(cfg, motion, at, k)
  {
    hide InReach;
    if k == 0 {
    } else {
      MovedMeans(cfg, motion, at, k - 1);
    }
  }

  method Sample(cfg: Cfg, motion: seq<MotionSample>, at: Point) returns (best: real)
    ensures best == SampleMax(cfg, motion, at, |motion|)
  {
    hide Square;
    var r2 := Square(cfg.sampleRad);
    best := 0.0;
    for i := 0 to |motion|
      invariant best == SampleMax(cfg, motion, at, i)
    {
      var s := motion[i];
      var dx, dy := s.at.x - at.x, s.at.y - at.y;
      if Square(dx) + Square(dy) <= r2 && best < s.resid { best := s.resid; }
    }
  }

  function ToSight(cfg: Cfg, motion: seq<MotionSample>, d: GateDet): Sight {
    Sight(d.at, d.w, d.h, d.conf, Moved(cfg, motion, d.at), d.src)
  }

  function AllSights(cfg: Cfg, motion: seq<MotionSample>, dets: seq<GateDet>): (r: seq<Sight>)
    ensures |r| == |dets| && forall i :: 0 <= i < |r| ==> r[i] == ToSight(cfg, motion, dets[i])
  {
    seq(|dets|, i requires 0 <= i < |dets| => ToSight(cfg, motion, dets[i]))
  }

  function Confs(dets: seq<GateDet>): (r: seq<real>)
    ensures |r| == |dets| && forall i :: 0 <= i < |r| ==> r[i] == dets[i].conf
  {
    seq(|dets|, i requires 0 <= i < |dets| => dets[i].conf)
  }

  function Centres(dets: seq<GateDet>): (r: seq<Point>)
    ensures |r| == |dets| && forall i :: 0 <= i < |r| ==> r[i] == dets[i].at
  {
    seq(|dets|, i requires 0 <= i < |dets| => dets[i].at)
  }

  // ---------------------------------------------------------------- the motion blob

  /** The points of the first k samples that move enough. */
  function MovingPoints(cfg: Cfg, motion: seq<MotionSample>, k: nat): seq<Point>
    requires k <= |motion|
  {
    if k == 0 then []
    else if motion[k - 1].resid >= cfg.motionRmin then MovingPoints(cfg, motion, k - 1) + [motion[k - 1].at]
    else MovingPoints(cfg, motion, k - 1)
  }

  function BlobDet(cfg: Cfg, e: Clustering.Extent): GateDet {
    var w, h := e.x1 - e.x0, e.y1 - e.y0;
    GateDet(P.Point(e.x0 + w / 2.0, e.y0 + h / 2.0), w, h, cfg.confsky, MOTION_SENTINEL)
  }

  /** Some connected component of the moving points has at least motionMinpts members. */
  ghost predicate HasBlob(cfg: Cfg, motion: seq<MotionSample>) {
    var pts := MovingPoints(cfg, motion, |motion|);
    exists i :: 0 <= i < |pts| && |P.Component(pts, cfg.motionCell, i)| >= cfg.motionMinpts
  }

  /** d stands for the box of the largest component of the moving points (with the smallest root). */
  ghost predicate IsBlob(cfg: Cfg, motion: seq<MotionSample>, d: GateDet) {
    var pts := MovingPoints(cfg, motion, |motion|);
    exists i, e :: && Clustering.IsChosenComponent(pts, cfg.motionCell, i)
                   && Clustering.IsExtentOf(e, pts, P.Component(pts, cfg.motionCell, i), BIG)
                   && d == BlobDet(cfg, e)
  }

  method MotionBlob(cfg: Cfg, motion: seq<MotionSample>) returns (blob: Option<GateDet>)
    ensures blob.Some? <==> HasBlob(cfg, motion)
    ensures blob.Some? ==> IsBlob(cfg, motion, blob.value)
  {
    var pts: seq<Point> := [];
    for i := 0 to |motion|
      invariant pts == MovingPoints(cfg, motion, i)
    {
      if motion[i].resid >= cfg.motionRmin { pts := pts + [motion[i].at]; }
    }
    var e := Clustering.LargestCluster(pts, cfg.motionMinpts, cfg.motionCell, BIG);
    blob := if e.Some? then Some(BlobDet(cfg, e.value)) else None;
  }

  /** What a search frame processes: the detections, and the blob once seeding on motion is on. */
  ghost predicate IsAugmented(cfg: Cfg, motion: seq<MotionSample>, dets: seq<GateDet>, fcount: int, aug: seq<GateDet>) {
    if cfg.seedOnMotion && fcount >= cfg.motionSilent && HasBlob(cfg, motion)
    then |aug| == |dets| + 1 && aug[..|dets|] == dets && IsBlob(cfg, motion, aug[|dets|])
    else aug == dets
  }

  /** What any update may process: the detections, perhaps with a blob of the frame's motion. */
  ghost predicate IsProcessed(cfg: Cfg, motion: seq<MotionSample>, dets: seq<GateDet>, aug: seq<GateDet>) {
    || aug == dets
    || (HasBlob(cfg, motion) && |aug| == |dets| + 1 && aug[..|dets|] == dets && IsBlob(cfg, motion, aug[|dets|]))
  }

  lemma AugmentedIsProcessed(cfg: Cfg, motion: seq<MotionSample>, dets: seq<GateDet>, fcount: int, aug: seq<GateDet>)
    requires IsAugmented(cfg, motion, dets, fcount, aug)
    ensures IsProcessed(cfg, motion, dets, aug)
  {
    hide HasBlob, IsBlob;
  }

  // ---------------------------------------------------------------- selection

  predicate InActive(cfg: Cfg, fw: int, fh: int, at: Point) {
    || cfg.borderfrac <= 0.0 || fw <= 0 || fh <= 0
    || (var mx, my := Times(cfg.borderfrac, fw as real), Times(cfg.borderfrac, fh as real);
        mx <= at.x <= fw as real - mx && my <= at.y <= fh as real - my)
  }

  function MaxConf(h: History): real {
    if |h| == 0 then 0.0
    else if |h| == 1 || MaxConf(h[..|h| - 1]) < h[|h| - 1].s.conf then h[|h| - 1].s.conf
    else MaxConf(h[..|h| - 1])
  }

  lemma {:induction false} MaxConfIsMax(h: History)
    requires h != []
    ensures forall i :: 0 <= i < |h| ==> h[i].s.conf <= MaxConf(h)
    ensures exists i :: 0 <= i < |h| && h[i].s.conf == MaxConf(h)
  {
    if |h| == 1 {
    } else {
      MaxConfIsMax(h[..|h| - 1]);
      var i :| 0 <= i < |h| - 1 && h[..|h| - 1][i].s.conf == MaxConf(h[..|h| - 1]);
      assert h[i].s.conf == MaxConf(h[..|h| - 1]);
    }
  }

  predicate Eligible(cfg: Cfg, fw: int, fh: int, t: Track) {
    t.lost == 0 && t.age >= cfg.amin && InActive(cfg, fw, fh, t.at) && t.sup >= cfg.ksup
  }

  /** (sup, confidence) in lexicographic order. */
  predicate Above(sup: int, conf: real, bestSup: int, bestConf: real) {
    sup > bestSup || (sup == bestSup && conf > bestConf)
  }

  datatype Selection = Selection(idx: int, sup: int, conf: real)

  function Select(cfg: Cfg, fw: int, fh: int, tk: Tracks, k: nat): (r: Selection)
    requires k <= |tk.tracks| == |tk.hist|
    ensures -1 <= r.idx < k
  {
    if k == 0 then Selection(-1, -1, -1.0)
    else
      var b := Select(cfg, fw, fh, tk, k - 1);
      var t, c := tk.tracks[k - 1], MaxConf(tk.hist[k - 1]);
      if Eligible(cfg, fw, fh, t) && Above(t.sup, c, b.sup, b.conf) then Selection(k - 1, t.sup, c) else b
  }

  /** The first of the lexicographically largest eligible tracks among the first k, or -1. */
  predicate IsSelected(cfg: Cfg, fw: int, fh: int, tk: Tracks, k: nat, c: int)
    requires k <= |tk.tracks| == |tk.hist|
  {
    && -1 <= c < k
    && (c == -1 ==> forall j :: 0 <= j < k ==> !Eligible(cfg, fw, fh, tk.tracks[j]))
    && (c >= 0 ==>
          && Eligible(cfg, fw, fh, tk.tracks[c])
          && forall j :: 0 <= j < k && Eligible(cfg, fw, fh, tk.tracks[j]) ==>
                           && !Above(tk.tracks[j].sup, MaxConf(tk.hist[j]), tk.tracks[c].sup, MaxConf(tk.hist[c]))
                           && (j < c ==>
                                 Above(tk.tracks[c].sup, MaxConf(tk.hist[c]), tk.tracks[j].sup, MaxConf(tk.hist[j]))))
  }

  lemma {:induction false} SelectSelects(cfg: Cfg, fw: int, fh: int, tk: Tracks, k: nat)
    requires k <= |tk.tracks| == |tk.hist|
    requires forall j :: 0 <= j < |tk.tracks| ==> tk.tracks[j].sup >= 0
    ensures var b := Select(cfg, fw, fh, tk, k);
            && IsSelected(cfg, fw, fh, tk, k, b.idx)
            && (b.idx >= 0 ==> b.sup == tk.tracks[b.idx].sup && b.conf == MaxConf(tk.hist[b.idx]))
            && (b.idx < 0 ==> b.sup == -1)
  {
    hide MaxConf, InActive;
    if k == 0 {
    } else {
      SelectSelects(cfg, fw, fh, tk, k - 1);
    }
  }

  // ---------------------------------------------------------------- one update

  datatype SynthBox = SynthBox(at: Point, w: real, h: real)

  /** `frames` are the detections processed by every update since the last reset. */
  datatype State =
    State(tk: Tracks, frames: seq<seq<Sight>>, locked: bool, lockLost: int, at: Point, fcount: int,
          synth: Option<SynthBox>)

  /** One call: its arguments, the list a search would process, and the order the sort left it in. */
  datatype Input =
    Input(motion: seq<MotionSample>, dets: seq<GateDet>, aug: seq<GateDet>, order: seq<nat>, fw: int, fh: int)

  /** Detections point at objects, so their indices are not negative. */
  predicate SourcesOk(dets: seq<GateDet>) {
    forall i :: 0 <= i < |dets| ==> dets[i].src >= 0
  }

  ghost predicate InputOk(cfg: Cfg, x: Input) {
    IsProcessed(cfg, x.motion, x.dets, x.aug) && IsOrder(x.order, Confs(x.aug))
  }

  function Searched(cfg: Cfg, st: State, x: Input): (tk: Tracks)
    requires |st.tk.tracks| == |st.tk.hist| && IsOrder(x.order, Confs(x.aug))
    ensures |tk.tracks| == |tk.hist|
  {
    Search(GateParams(cfg), |st.frames|, st.tk, Pick(AllSights(cfg, x.motion, x.aug), x.order))
  }

  function LastSize(h: History, at: Point): SynthBox {
    if h == [] then SynthBox(at, 0.0, 0.0) else SynthBox(at, h[|h| - 1].s.w, h[|h| - 1].s.h)
  }

  function SearchStep(cfg: Cfg, st: State, x: Input): (State, int)
    requires |st.tk.tracks| == |st.tk.hist| && IsOrder(x.order, Confs(x.aug))
  {
    var tk := Searched(cfg, st, x);
    var frames := st.frames + [AllSights(cfg, x.motion, x.aug)];
    var c := Select(cfg, x.fw, x.fh, tk, |tk.tracks|).idx;
    var next := State(tk, frames, false, st.lockLost, st.at, st.fcount + 1, st.synth);
    if c < 0 then (next, -1)
    else
      var t := tk.tracks[c];
      if t.src == MOTION_SENTINEL then
        (next.(locked := true, lockLost := 0, at := t.at, synth := Some(LastSize(tk.hist[c], t.at))), SYNTH_CONFIRM)
      else if t.src >= 0 then (next.(locked := true, lockLost := 0, at := t.at), t.src)
      else (next.(at := t.at), t.src)
  }

  function FollowedSrc(cfg: Cfg, at: Point, dets: seq<GateDet>): int {
    var best := Follow(Bound(cfg.dist), at, Centres(dets), |dets|).best;
    if best < 0 then -1 else dets[best].src
  }

  function LockedStep(cfg: Cfg, st: State, x: Input): (State, int) {
    var frames := st.frames + [AllSights(cfg, x.motion, x.dets)];
    var next := State(Begin(st.tk), frames, true, st.lockLost, st.at, st.fcount + 1, st.synth);
    if !InActive(cfg, x.fw, x.fh, st.at) then (next.(locked := false, tk := NONE), -1)
    else
      var at := Follow(Bound(cfg.dist), st.at, Centres(x.dets), |x.dets|).at;
      var src := FollowedSrc(cfg, st.at, x.dets);
      if src >= 0 then (next.(lockLost := 0, at := at), src)
      else if st.lockLost + 1 > cfg.maxlost then
        (next.(locked := false, tk := NONE, lockLost := st.lockLost + 1, at := at), -1)
      else (next.(lockLost := st.lockLost + 1, at := at), -1)
  }

  function Step(cfg: Cfg, st: State, x: Input): (State, int)
    requires |st.tk.tracks| == |st.tk.hist| && IsOrder(x.order, Confs(x.aug))
  {
    if st.locked then LockedStep(cfg, st, x) else SearchStep(cfg, st, x)
  }

  // ---------------------------------------------------------------- what a run keeps

  predicate StateOk(cfg: Cfg, st: State) {
    && |st.tk.tracks| == |st.tk.hist|
    && (!st.locked ==>
          && AllOk(GateParams(cfg), |st.frames| - 1, st.tk)
          && Fresh(GateParams(cfg), st.tk.tracks) && AllSeen(st.tk, st.frames))
  }

  lemma SearchedOk(cfg: Cfg, st: State, x: Input)
    requires StateOk(cfg, st) && !st.locked && IsOrder(x.order, Confs(x.aug))
    ensures var tk := Searched(cfg, st, x);
            && AllOk(GateParams(cfg), |st.frames|, tk) && Fresh(GateParams(cfg), tk.tracks)
            && AllSeen(tk, st.frames + [AllSights(cfg, x.motion, x.aug)])
  {
    SightsAreTheFrames(cfg, x.motion, x.aug, x.order);
    hide AllOk, Fresh, AllSeen, Search, IsOrder, AllSights;
    SearchOk(GateParams(cfg), st.tk, Pick(AllSights(cfg, x.motion, x.aug), x.order), st.frames,
             AllSights(cfg, x.motion, x.aug));
  }

  lemma SightsAreTheFrames(cfg: Cfg, motion: seq<MotionSample>, aug: seq<GateDet>, order: seq<nat>)
    requires IsOrder(order, Confs(aug))
    ensures forall j :: 0 <= j < |order| ==> order[j] < |AllSights(cfg, motion, aug)|
    ensures forall j :: 0 <= j < |order| ==>
                          Pick(AllSights(cfg, motion, aug), order)[j] in AllSights(cfg, motion, aug)
  {
    hide Falling, ToSight;
  }

  lemma NoneOk(p: Params, now: int, frames: seq<seq<Sight>>)
    ensures AllOk(p, now, NONE) && Fresh(p, NONE.tracks) && AllSeen(NONE, frames)
  {
  }

  lemma StepOk(cfg: Cfg, st: State, x: Input)
    requires StateOk(cfg, st) && IsOrder(x.order, Confs(x.aug))
    ensures StateOk(cfg, Step(cfg, st, x).0)
    ensures Step(cfg, st, x).0.fcount == st.fcount + 1
    ensures Step(cfg, st, x).0.frames
            == st.frames + [AllSights(cfg, x.motion, if st.locked then x.dets else x.aug)]
  {
    hide AllOk, Fresh, AllSeen, Searched, IsOrder, Select, Follow, FollowedSrc, AllSights, InActive, LastSize;
    if st.locked {
      NoneOk(GateParams(cfg), |st.frames|, st.frames + [AllSights(cfg, x.motion, x.dets)]);
    } else {
      SearchedOk(cfg, st, x);
    }
  }

  // ---------------------------------------------------------------- search results

  /** A history that justifies confirming the latest frame's detection with source r. */
  predicate IsEvidence(cfg: Cfg, h: History, frames: seq<seq<Sight>>, r: int) {
    && |h| >= 1 && |h| >= cfg.amin && |h| >= cfg.ksup
    && Chained(GateParams(cfg), h) && Seen(h, frames) && TailSupported(h, cfg.ksup)
    && h[|h| - 1].frame == |frames| - 1 && h[|h| - 1].s.src == r
  }

  lemma EligibleIsEvidence(cfg: Cfg, fw: int, fh: int, t: Track, h: History, frames: seq<seq<Sight>>)
    requires TrackOk(GateParams(cfg), |frames| - 1, t, h) && Seen(h, frames) && Eligible(cfg, fw, fh, t)
    ensures IsEvidence(cfg, h, frames, t.src) && InActive(cfg, fw, fh, t.at)
    ensures h[|h| - 1].s in frames[|frames| - 1] && h[|h| - 1].s.at == t.at && h[|h| - 1].s.src == t.src
  {
    hide Chained, InActive;
  }

  lemma SupNatural(p: Params, now: int, tk: Tracks)
    requires AllOk(p, now, tk)
    ensures forall j :: 0 <= j < |tk.tracks| ==> tk.tracks[j].sup >= 0
  {
    forall j | 0 <= j < |tk.tracks| ensures tk.tracks[j].sup >= 0 {
      assert TrackOk(p, now, tk.tracks[j], tk.hist[j]);
    }
  }

  /** The track a search frame confirms: eligible, lexicographically largest, and with a history. */
  predicate Confirms(cfg: Cfg, x: Input, g: State, c: int) {
    && |g.tk.tracks| == |g.tk.hist| && 0 <= c < |g.tk.tracks|
    && IsSelected(cfg, x.fw, x.fh, g.tk, |g.tk.tracks|, c)
    && IsEvidence(cfg, g.tk.hist[c], g.frames, g.tk.tracks[c].src)
    && g.at == g.tk.tracks[c].at && InActive(cfg, x.fw, x.fh, g.at)
  }

  predicate Justified(cfg: Cfg, x: Input, g: State, src: int) {
    exists c :: 0 <= c < |g.tk.tracks| && Confirms(cfg, x, g, c) && g.tk.tracks[c].src == src
  }

  /** The sight is detection i of those processed. */
  lemma SightIsDetection(cfg: Cfg, x: Input, frames: seq<seq<Sight>>, s: Sight) returns (i: nat)
    requires frames != [] && frames[|frames| - 1] == AllSights(cfg, x.motion, x.aug) && s in frames[|frames| - 1]
    ensures i < |x.aug| && x.aug[i] == GateDet(s.at, s.w, s.h, s.conf, s.src)
  {
    hide Moved;
    i :| 0 <= i < |x.aug| && AllSights(cfg, x.motion, x.aug)[i] == s;
  }

  predicate IsDetection(dets: seq<GateDet>, src: int, at: Point) {
    exists i :: 0 <= i < |dets| && dets[i].src == src && dets[i].at == at
  }

  /** What is processed is a detection of the frame, or a blob of its motion. */
  lemma ProcessedIsEither(cfg: Cfg, x: Input, i: nat)
    requires InputOk(cfg, x) && SourcesOk(x.dets) && i < |x.aug|
    ensures || (x.aug[i].src >= 0 && IsDetection(x.dets, x.aug[i].src, x.aug[i].at))
            || (x.aug[i].src == MOTION_SENTINEL && HasBlob(cfg, x.motion) && IsBlob(cfg, x.motion, x.aug[i]))
  {
    hide HasBlob;
    if i < |x.dets| {
      assert x.aug[..|x.dets|][i] == x.aug[i];
      assert x.dets[i].src == x.aug[i].src;
    }
  }

  /** The box is that of a largest blob of the frame's motion. */
  ghost predicate IsBlobBox(cfg: Cfg, motion: seq<MotionSample>, box: SynthBox) {
    HasBlob(cfg, motion) && exists d :: IsBlob(cfg, motion, d) && box == SynthBox(d.at, d.w, d.h)
  }

  /** A search update returns -1 exactly when no track is eligible; otherwise it locks onto a track it
      can justify, and returns the source of a detection of this frame, or -2 for the motion blob. */
  lemma SearchReturns(cfg: Cfg, st: State, x: Input)
    requires StateOk(cfg, st) && !st.locked && InputOk(cfg, x) && SourcesOk(x.dets)
    ensures var (g, r) := Step(cfg, st, x);
            && (r == -1 <==> forall j :: 0 <= j < |g.tk.tracks| ==> !Eligible(cfg, x.fw, x.fh, g.tk.tracks[j]))
            && (r == -1 <==> !g.locked)
            && (r != -1 ==> g.lockLost == 0 && Justified(cfg, x, g, if r == SYNTH_CONFIRM then MOTION_SENTINEL else r))
            && (r != -1 && r != SYNTH_CONFIRM ==> r >= 0 && IsDetection(x.dets, r, g.at))
            && (r == SYNTH_CONFIRM ==> g.synth.Some? && g.synth.value.at == g.at && IsBlobBox(cfg, x.motion, g.synth.value))
  {
    SearchedOk(cfg, st, x);
    var tk := Searched(cfg, st, x);
    SupNatural(GateParams(cfg), |st.frames|, tk);
    SelectSelects(cfg, x.fw, x.fh, tk, |tk.tracks|);
    var c := Select(cfg, x.fw, x.fh, tk, |tk.tracks|).idx;
    var frames := st.frames + [AllSights(cfg, x.motion, x.aug)];
    hide Searched, Select, AllSights, Fresh, IsProcessed, IsBlobBox, InActive, MaxConf, IsDetection, LastSize;
    if c >= 0 {
      assert TrackOk(GateParams(cfg), |frames| - 1, tk.tracks[c], tk.hist[c]) && Seen(tk.hist[c], frames);
      SelectedIsDetection(cfg, x, tk.tracks[c], tk.hist[c], frames);
      hide TrackOk, Seen, IsEvidence, IsSelected, Eligible;
      assert Confirms(cfg, x, Step(cfg, st, x).0, c);
    }
  }

  lemma SelectedIsDetection(cfg: Cfg, x: Input, t: Track, h: History, frames: seq<seq<Sight>>)
    requires InputOk(cfg, x) && SourcesOk(x.dets)
    requires frames != [] && frames[|frames| - 1] == AllSights(cfg, x.motion, x.aug)
    requires TrackOk(GateParams(cfg), |frames| - 1, t, h) && Seen(h, frames) && Eligible(cfg, x.fw, x.fh, t)
    ensures IsEvidence(cfg, h, frames, t.src) && InActive(cfg, x.fw, x.fh, t.at)
    ensures || (t.src >= 0 && IsDetection(x.dets, t.src, t.at))
            || (t.src == MOTION_SENTINEL && IsBlobBox(cfg, x.motion, LastSize(h, t.at)))
  {
    hide InputOk, HasBlob, IsBlob, Moved;
    EligibleIsEvidence(cfg, x.fw, x.fh, t, h, frames);
    var i := SightIsDetection(cfg, x, frames, h[|h| - 1].s);
    ProcessedIsEither(cfg, x, i);
  }

  // ---------------------------------------------------------------- the lock

  /** The source of the detection that the locked scan from `at` returns. */
  ghost predicate IsFollowed(cfg: Cfg, at: Point, dets: seq<GateDet>, src: int) {
    exists i: nat :: i < |dets| && dets[i].src == src && IsLockResult(Bound(cfg.dist), at, Centres(dets), i)
  }

  lemma FollowedSrcMeans(cfg: Cfg, at: Point, dets: seq<GateDet>)
    requires SourcesOk(dets)
    ensures FollowedSrc(cfg, at, dets) < 0 <==> Miss(cfg.dist, at, Centres(dets))
    ensures var l := Follow(Bound(cfg.dist), at, Centres(dets), |dets|);
            var src := FollowedSrc(cfg, at, dets);
            if src < 0 then src == -1 && l.at == at else IsDetection(dets, src, l.at) && IsFollowed(cfg, at, dets, src)
  {
    FollowMisses(cfg.dist, at, Centres(dets));
    FollowIsLockResult(Bound(cfg.dist), at, Centres(dets));
    hide Follow, Bound, Miss, IsLockResult;
  }

  /** One locked update: where the lock goes, what is returned, and when the lock ends. */
  lemma LockedReturns(cfg: Cfg, st: State, x: Input)
    requires st.locked && SourcesOk(x.dets)
    ensures var (g, r) := LockedStep(cfg, st, x);
            var inside := InActive(cfg, x.fw, x.fh, st.at);
            && (r == -1 <==> !inside || Miss(cfg.dist, st.at, Centres(x.dets)))
            && (r != -1 ==> g.locked && g.lockLost == 0 && IsDetection(x.dets, r, g.at))
            && (r != -1 ==> IsFollowed(cfg, st.at, x.dets, r))
            && (inside && r == -1 ==> g.at == st.at && g.lockLost == st.lockLost + 1)
            && (!g.locked <==> !inside || (r == -1 && st.lockLost + 1 > cfg.maxlost))
  {
    FollowedSrcMeans(cfg, st.at, x.dets);
    hide Follow, FollowedSrc, Miss, InActive, IsDetection, IsFollowed, AllSights;
  }

  // ---------------------------------------------------------------- runs

  /** Just constructed, or just reset: the frame counter and the last lock point carry over. */
  predicate IsReset(st: State) {
    st.tk == NONE && st.frames == [] && !st.locked && st.lockLost == 0
  }

  ghost predicate InputsOk(cfg: Cfg, xs: seq<Input>) {
    forall n :: 0 <= n < |xs| ==> InputOk(cfg, xs[n]) && SourcesOk(xs[n].dets)
  }

  ghost function After(cfg: Cfg, s0: State, xs: seq<Input>, n: nat): (st: State)
    requires n <= |xs| && IsReset(s0) && InputsOk(cfg, xs)
    ensures StateOk(cfg, st) && st.fcount == s0.fcount + n
  {
    if n == 0 then NoneOk(GateParams(cfg), -1, []); s0
    else
      var st := After(cfg, s0, xs, n - 1);
      StepOk(cfg, st, xs[n - 1]);
      Step(cfg, st, xs[n - 1]).0
  }

  lemma AfterNext(cfg: Cfg, s0: State, xs: seq<Input>, n: nat)
    requires n < |xs| && IsReset(s0) && InputsOk(cfg, xs)
    ensures IsOrder(xs[n].order, Confs(xs[n].aug))
    ensures StateOk(cfg, After(cfg, s0, xs, n)) && |After(cfg, s0, xs, n).tk.tracks| == |After(cfg, s0, xs, n).tk.hist|
    ensures After(cfg, s0, xs, n).fcount == s0.fcount + n
    ensures After(cfg, s0, xs, n + 1) == Step(cfg, After(cfg, s0, xs, n), xs[n]).0
  {
    hide Step, IsOrder, IsProcessed, SourcesOk;
  }

  lemma {:induction false} FramesCount(cfg: Cfg, s0: State, xs: seq<Input>, n: nat)
    requires n <= |xs| && IsReset(s0) && InputsOk(cfg, xs)
    ensures |After(cfg, s0, xs, n).frames| == n
  {
    hide Step, StateOk, InputsOk;
    if n == 0 {
    } else {
      FramesCount(cfg, s0, xs, n - 1);
      AfterNext(cfg, s0, xs, n - 1);
      StepOk(cfg, After(cfg, s0, xs, n - 1), xs[n - 1]);
    }
  }

  ghost function ResultAt(cfg: Cfg, s0: State, xs: seq<Input>, n: nat): int
    requires n < |xs| && IsReset(s0) && InputsOk(cfg, xs)
  {
    Step(cfg, After(cfg, s0, xs, n), xs[n]).1
  }

  /** In every run, a result of an unlocked gate is the source of a detection of the current frame
      (or -2 for the motion blob), backed by the largest eligible track and its history. */
  lemma FirstReturnIsJustified(cfg: Cfg, s0: State, xs: seq<Input>, n: nat)
    requires n < |xs| && IsReset(s0) && InputsOk(cfg, xs) && !After(cfg, s0, xs, n).locked
    ensures var g := After(cfg, s0, xs, n + 1);
            var r := ResultAt(cfg, s0, xs, n);
            && (r == -1 <==> !g.locked)
            && (r != -1 ==> Justified(cfg, xs[n], g, if r == SYNTH_CONFIRM then MOTION_SENTINEL else r))
            && (r != -1 && r != SYNTH_CONFIRM ==> r >= 0 && IsDetection(xs[n].dets, r, g.at))
            && (r == SYNTH_CONFIRM ==> g.synth.Some? && IsBlobBox(cfg, xs[n].motion, g.synth.value))
  {
    SearchReturns(cfg, After(cfg, s0, xs, n), xs[n]);
    hide Step, Justified, IsDetection, IsBlobBox, StateOk;
  }

  predicate Border(cfg: Cfg, st: State, x: Input) {
    !InActive(cfg, x.fw, x.fh, st.at)
  }

  /** Update n of the run found the gate locked, inside the active area, and missed. */
  ghost predicate MissedAt(cfg: Cfg, s0: State, xs: seq<Input>, n: nat)
    requires n < |xs| && IsReset(s0) && InputsOk(cfg, xs)
  {
    var st := After(cfg, s0, xs, n);
    st.locked && !Border(cfg, st, xs[n]) && Miss(cfg.dist, st.at, Centres(xs[n].dets))
  }

  lemma RunStep(cfg: Cfg, s0: State, xs: seq<Input>, n: nat)
    requires n < |xs| && IsReset(s0) && InputsOk(cfg, xs)
    ensures var st, g := After(cfg, s0, xs, n), After(cfg, s0, xs, n + 1);
            if !st.locked then g.locked ==> g.lockLost == 0
            else
              && (MissedAt(cfg, s0, xs, n) ==> g.lockLost == st.lockLost + 1
                                               && (g.locked <==> g.lockLost <= cfg.maxlost))
              && (!MissedAt(cfg, s0, xs, n) ==> (g.locked <==> !Border(cfg, st, xs[n])) && (g.locked ==> g.lockLost == 0))
  {
    var st := After(cfg, s0, xs, n);
    if st.locked { LockedReturns(cfg, st, xs[n]); } else { SearchReturns(cfg, st, xs[n]); }
    hide LockedStep, SearchStep, Miss, InActive, IsDetection, IsFollowed, Justified, IsBlobBox, StateOk, IsProcessed, IsOrder, SourcesOk;
  }

  ghost predicate MissedThrough(cfg: Cfg, s0: State, xs: seq<Input>, lo: int, hi: nat)
    requires hi <= |xs| && IsReset(s0) && InputsOk(cfg, xs)
  {
    0 <= lo && forall i :: lo <= i < hi ==> MissedAt(cfg, s0, xs, i)
  }

  /** While locked, the miss counter counts the unbroken run of misses up to now. */
  lemma {:induction false} LostCountsMisses(cfg: Cfg, s0: State, xs: seq<Input>, n: nat)
    requires n <= |xs| && IsReset(s0) && InputsOk(cfg, xs) && After(cfg, s0, xs, n).locked
    ensures var lost := After(cfg, s0, xs, n).lockLost;
            0 <= lost <= n && MissedThrough(cfg, s0, xs, n - lost, n) && (lost > 0 ==> lost <= cfg.maxlost)
  {
    hide Step, MissedAt, InputsOk, StateOk, Border;
    if n == 0 {
    } else {
      RunStep(cfg, s0, xs, n - 1);
      if After(cfg, s0, xs, n - 1).locked { LostCountsMisses(cfg, s0, xs, n - 1); }
      else { NotMissed(cfg, s0, xs, n - 1); }
    }
  }

  lemma NotMissed(cfg: Cfg, s0: State, xs: seq<Input>, n: nat)
    requires n < |xs| && IsReset(s0) && InputsOk(cfg, xs) && !After(cfg, s0, xs, n).locked
    ensures !MissedAt(cfg, s0, xs, n)
  {
  }

  /** A run of misses leaves at least its length in the counter. */
  lemma {:induction false} MissesAreCounted(cfg: Cfg, s0: State, xs: seq<Input>, lo: nat, n: nat)
    requires lo <= n < |xs| && IsReset(s0) && InputsOk(cfg, xs)
    requires MissedThrough(cfg, s0, xs, lo, n + 1)
    ensures After(cfg, s0, xs, n).locked && After(cfg, s0, xs, n).lockLost >= n - lo
  {
    hide Step, Miss, InputsOk, StateOk, Border;
    assert MissedAt(cfg, s0, xs, n);
    if lo < n {
      MissesAreCounted(cfg, s0, xs, lo, n - 1);
      RunStep(cfg, s0, xs, n - 1);
    } else {
      LostCountsMisses(cfg, s0, xs, n);
    }
  }

  function Grace(cfg: Cfg): nat {
    if cfg.maxlost > 0 then cfg.maxlost else 0
  }

  /** The lock ends at an update exactly when it lies in the border, or when this update and the
      maxlost before it were all misses. */
  lemma LockEndsExactly(cfg: Cfg, s0: State, xs: seq<Input>, n: nat)
    requires n < |xs| && IsReset(s0) && InputsOk(cfg, xs) && After(cfg, s0, xs, n).locked
    ensures !After(cfg, s0, xs, n + 1).locked
            <==> (Border(cfg, After(cfg, s0, xs, n), xs[n])
                  || MissedThrough(cfg, s0, xs, n - Grace(cfg), n + 1))
  {
    hide Step, Miss, InputsOk, StateOk, Border;
    RunStep(cfg, s0, xs, n);
    LostCountsMisses(cfg, s0, xs, n);
    if MissedThrough(cfg, s0, xs, n - Grace(cfg), n + 1) {
      assert MissedAt(cfg, s0, xs, n);
      MissesAreCounted(cfg, s0, xs, n - Grace(cfg), n);
    }
  }

  // ---------------------------------------------------------------- the class

  /** The rest of a track record: its size and its best confidence. */
  datatype Shape = Shape(w: real, h: real, maxc: real)

  predicate ShapeOk(s: Shape, h: History) {
    h != [] && s == Shape(h[|h| - 1].s.w, h[|h| - 1].s.h, MaxConf(h))
  }

  predicate ShapesOk(shapes: seq<Shape>, hist: seq<History>) {
    |shapes| == |hist| && forall k :: 0 <= k < |hist| ==> ShapeOk(shapes[k], hist[k])
  }

  lemma ShapeGrows(s: Shape, h: History, now: int, d: Sight)
    requires ShapeOk(s, h)
    ensures ShapeOk(Shape(d.w, d.h, if s.maxc < d.conf then d.conf else s.maxc), h + [Sighting(now, d)])
  {
    var g := h + [Sighting(now, d)];
    assert g[..|g| - 1] == h;
  }

  class DetGate {
    const cfg: Cfg
    var tracks: seq<Track>
    var shapes: seq<Shape>
    var locked: bool
    var lockLost: int
    var lockAt: Point
    var fcount: int
    var synth: Option<SynthBox>
    ghost var hist: seq<History>
    ghost var frames: seq<seq<Sight>>

    ghost function Contents(): State
      reads this
    {
      State(Tracks(tracks, hist), frames, locked, lockLost, lockAt, fcount, synth)
    }

    ghost predicate Valid()
      reads this
    {
      StateOk(cfg, Contents()) && ShapesOk(shapes, hist)
    }

    constructor (cfg: Cfg)
      ensures this.cfg == cfg && Valid() && IsReset(Contents()) && fcount == 0 && synth == None
    {
      this.cfg := cfg;
      tracks, shapes, locked, lockLost, lockAt := [], [], false, 0, P.Point(0.0, 0.0);
      fcount, synth := 0, None;
      hist, frames := [], [];
    }

    method Reset()
      modifies this
      ensures Valid() && IsReset(Contents())
      ensures fcount == old(fcount) && lockAt == old(lockAt) && synth == old(synth)
    {
      locked, tracks, shapes, lockLost := false, [], [], 0;
      hist, frames := [], [];
    }

    /** update; `x` records the call with the list the search processed and the order of the sort. */
    method Update(motion: seq<MotionSample>, dets: seq<GateDet>, frameW: int, frameH: int)
      returns (r: int, ghost x: Input)
      requires Valid()
      modifies this
      ensures Valid() && InputOk(cfg, x)
      ensures !old(locked) ==> IsAugmented(cfg, motion, dets, old(fcount) + 1, x.aug)
      ensures x.motion == motion && x.dets == dets && x.fw == frameW && x.fh == frameH
      ensures (Contents(), r) == Step(cfg, old(Contents()), x)
    {
      hide LockedStep, SearchStep, StateOk, IsOrder, IsAugmented, ShapesOk, HasBlob, IsBlob;
      ghost var st := Contents();
      fcount := fcount + 1;
      StateShape(cfg, st);
      if locked {
        ghost var order := OrderExists(Confs(dets));
        x := Input(motion, dets, dets, order, frameW, frameH);
        StepOk(cfg, st, x);
        tracks := AgeAll(tracks);
        r := UpdateLocked(motion, dets, frameW, frameH, st, x);
      } else {
        var aug, order := Prepare(motion, dets);
        x := Input(motion, dets, aug, order, frameW, frameH);
        AugmentedIsProcessed(cfg, motion, dets, fcount, aug);
        StepOk(cfg, st, x);
        SearchTracks(motion, aug, order);
        r := LockBest(frameW, frameH, st, x);
      }
    }

    /** The detections with the motion blob, and the order in which the sort leaves them. */
    method Prepare(motion: seq<MotionSample>, dets: seq<GateDet>) returns (aug: seq<GateDet>, order: seq<nat>)
      ensures IsAugmented(cfg, motion, dets, fcount, aug) && IsOrder(order, Confs(aug))
    {
      hide HasBlob, IsBlob, IsOrder;
      aug := dets;
      if cfg.seedOnMotion && fcount >= cfg.motionSilent {
        var blob := MotionBlob(cfg, motion);
        if blob.Some? { aug := aug + [blob.value]; }
      }
      ghost var example := OrderExists(Confs(aug));
      order :| IsOrder(order, Confs(aug));
    }

    /** One detection: the shared fields by Associate, and the shape beside them. */
    method AssociateShaped(ts: seq<Track>, ghost h: seq<History>, sh: seq<Shape>, ghost now: int, d: Sight)
      returns (r: seq<Track>, ghost g: seq<History>, s: seq<Shape>)
      requires |ts| == |h| && ShapesOk(sh, h)
      ensures r == AssocOne(cfg.dist, now, Tracks(ts, h), d).tracks && g == AssocOne(cfg.dist, now, Tracks(ts, h), d).hist
      ensures ShapesOk(s, g)
    {
      hide Choose, MaxConf;
      var best;
      best, r, g := Associate(cfg.dist, now, ts, h, d);
      if best >= 0 {
        var maxc := if sh[best].maxc < d.conf then d.conf else sh[best].maxc;
        ShapeGrows(sh[best], h[best], now, d);
        s := sh[best := Shape(d.w, d.h, maxc)];
        hide ShapeOk;
      } else {
        assert ShapeOk(Shape(d.w, d.h, d.conf), [Sighting(now, d)]) by { NewShapeOk(now, d); }
        s := sh + [Shape(d.w, d.h, d.conf)];
        hide ShapeOk;
      }
    }

    method SearchTracks(motion: seq<MotionSample>, aug: seq<GateDet>, order: seq<nat>)
      requires |tracks| == |hist| && ShapesOk(shapes, hist) && IsOrder(order, Confs(aug))
      modifies this`tracks, this`shapes, this`hist, this`frames
      ensures Tracks(tracks, hist) == Search(GateParams(cfg), |old(frames)|, old(Tracks(tracks, hist)),
                                             Pick(AllSights(cfg, motion, aug), order))
      ensures ShapesOk(shapes, hist)
      ensures frames == old(frames) + [AllSights(cfg, motion, aug)]
    {
      hide AssocOne, Falling, Moved, ShapesOk;
      ghost var begin := Begin(Tracks(tracks, hist));
      ghost var sights := Pick(AllSights(cfg, motion, aug), order);
      var ts := AgeAll(tracks);
      var sh := shapes;
      ghost var h := hist;
      for i := 0 to |order|
        invariant |ts| == |h| && frames == old(frames) && ShapesOk(sh, h)
        invariant Tracks(ts, h) == Assoc(cfg.dist, |frames|, begin, sights, i)
      {
        var d := aug[order[i]];
        var rd := Sample(cfg, motion, d.at);
        assert (rd >= cfg.rmin) == Moved(cfg, motion, d.at) by { SampleDecides(cfg, motion, d.at, rd); }
        ts, h, sh := AssociateShaped(ts, h, sh, |frames|, Sight(d.at, d.w, d.h, d.conf, rd >= cfg.rmin, d.src));
      }
      tracks, shapes, hist := ReapShaped(ts, h, sh);
      frames := frames + [AllSights(cfg, motion, aug)];
    }

    /** reap, with the shapes beside the tracks. */
    method ReapShaped(ts: seq<Track>, ghost h: seq<History>, sh: seq<Shape>)
      returns (keep: seq<Track>, ks: seq<Shape>, ghost g: seq<History>)
      requires |ts| == |h| && ShapesOk(sh, h)
      ensures keep == Reap(cfg.maxlost, Tracks(ts, h)).tracks && g == Reap(cfg.maxlost, Tracks(ts, h)).hist
      ensures ShapesOk(ks, g)
    {
      hide ShapeOk;
      keep, ks := [], [];
      for k := 0 to |ts|
        invariant keep == Pick(ts, Kept(cfg.maxlost, ts, k)) && ks == Pick(sh, Kept(cfg.maxlost, ts, k))
      {
        if ts[k].lost <= cfg.maxlost { keep, ks := keep + [ts[k]], ks + [sh[k]]; }
      }
      g := Pick(h, Kept(cfg.maxlost, ts, |ts|));
    }

    /** The selection loop and the confirmation after it. */
    method LockBest(frameW: int, frameH: int, ghost st: State, ghost x: Input) returns (r: int)
      requires |tracks| == |hist| && ShapesOk(shapes, hist)
      requires |st.tk.tracks| == |st.tk.hist| && IsOrder(x.order, Confs(x.aug))
      requires x.fw == frameW && x.fh == frameH && !st.locked
      requires Tracks(tracks, hist) == Searched(cfg, st, x)
      requires Contents() == st.(tk := Searched(cfg, st, x), fcount := st.fcount + 1,
                                 frames := st.frames + [AllSights(cfg, x.motion, x.aug)])
      modifies this`locked, this`lockLost, this`lockAt, this`synth
      ensures (Contents(), r) == SearchStep(cfg, st, x)
    {
      hide Searched, InActive, MaxConf, IsOrder;
      ghost var tk := Tracks(tracks, hist);
      ghost var c := -1;
      var bestIdx, bestSup, bestConf := -1, -1, -1.0;
      var selW, selH := 0.0, 0.0;
      for k := 0 to |tracks|
        invariant Contents() == old(Contents()).(at := lockAt)
        invariant Select(cfg, frameW, frameH, tk, k) == Selection(c, bestSup, bestConf)
        invariant c < 0 ==> bestIdx == -1 && lockAt == old(lockAt)
        invariant c >= 0 ==>
                    bestIdx == tracks[c].src && SynthBox(lockAt, selW, selH) == LastSize(hist[c], tracks[c].at)
      {
        var t, s := tracks[k], shapes[k];
        assert ShapeOk(s, hist[k]);
        if t.lost != 0 || t.age < cfg.amin { continue; }
        if !InActive(cfg, frameW, frameH, t.at) { continue; }
        if t.sup < cfg.ksup { continue; }
        if t.sup > bestSup || (t.sup == bestSup && s.maxc > bestConf) {
          bestSup, bestConf, bestIdx := t.sup, s.maxc, t.src;
          lockAt, selW, selH := t.at, s.w, s.h;
          c := k;
        }
      }
      if bestIdx == MOTION_SENTINEL {
        locked, lockLost, synth := true, 0, Some(SynthBox(lockAt, selW, selH));
        return SYNTH_CONFIRM;
      }
      if bestIdx >= 0 { locked, lockLost := true, 0; }
      return bestIdx;
    }

    /** The locked scan: the border test, then each accepted detection moves the lock at once. */
    method UpdateLocked(motion: seq<MotionSample>, dets: seq<GateDet>, frameW: int, frameH: int,
                        ghost st: State, ghost x: Input) returns (r: int)
      requires st.locked && x == Input(motion, dets, x.aug, x.order, frameW, frameH)
      requires Contents() == st.(tk := Begin(st.tk), fcount := st.fcount + 1) && ShapesOk(shapes, hist)
      modifies this
      ensures (Contents(), r) == LockedStep(cfg, st, x) && ShapesOk(shapes, hist)
    {
      hide Dist2, Bound, InActive, ShapeOk, AllSights, Centres;
      frames := frames + [AllSights(cfg, motion, dets)];
      if !InActive(cfg, frameW, frameH, lockAt) {
        locked, tracks, shapes := false, [], [];
        hist := [];
        return -1;
      }
      ghost var next := Contents();
      var best, bd := -1, Bound(cfg.dist);
      for i := 0 to |dets|
        invariant var l := Follow(Bound(cfg.dist), st.at, Centres(dets), i);
                  lockAt == l.at && bd == l.bound && best == if l.best < 0 then -1 else dets[l.best].src
        invariant Contents() == next.(at := lockAt) && ShapesOk(shapes, hist)
      {
        var dd := Dist2(lockAt, dets[i].at);
        if dd < bd { bd, best, lockAt := dd, dets[i].src, dets[i].at; }
      }
      if best >= 0 {
        lockLost := 0;
        return best;
      }
      lockLost := lockLost + 1;
      if lockLost > cfg.maxlost {
        locked, tracks, shapes := false, [], [];
        hist := [];
      }
      return -1;
    }

    /** synth_seed: hands out the confirmed motion box once. */
    method SynthSeed() returns (box: Option<SynthBox>)
      modifies this`synth
      ensures box == old(synth) && synth == None
    {
      box := synth;
      synth := None;
    }
  }

  lemma StateShape(cfg: Cfg, st: State)
    requires StateOk(cfg, st)
    ensures |st.tk.tracks| == |st.tk.hist|
  {
  }

  lemma NewShapeOk(now: int, d: Sight)
    ensures ShapeOk(Shape(d.w, d.h, d.conf), [Sighting(now, d)])
  {
  }

  lemma SampleDecides(cfg: Cfg, motion: seq<MotionSample>, at: Point, rd: real)
    requires rd == SampleMax(cfg, motion, at, |motion|)
    ensures (rd >= cfg.rmin) == Moved(cfg, motion, at)
  {
  }
}
