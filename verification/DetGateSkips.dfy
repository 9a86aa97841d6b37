/** The detection gate: is the support behind a confirmation consecutive? */
module DetGateSkips {
  import opened Association
  import opened DetGates
  import opened GateTracks
  import opened Options
  import opened Reals
  import opened SkippedFrames
  import UnionFind

  /** A run in which the motion blob is processed exactly when the code adds it. */
  ghost predicate IsRun(cfg: Cfg, s0: State, xs: seq<Input>) {
    && IsReset(s0) && s0.fcount >= 0 && InputsOk(cfg, xs)
    && forall n :: 0 <= n < |xs| && !After(cfg, s0, xs, n).locked ==>
                     IsAugmented(cfg, xs[n].motion, xs[n].dets, s0.fcount + n + 1, xs[n].aug)
  }

  /** Update n of the run is the one that confirms. */
  ghost predicate ConfirmsAt(cfg: Cfg, s0: State, xs: seq<Input>, n: nat) {
    && IsRun(cfg, s0, xs) && n < |xs|
    && !After(cfg, s0, xs, n).locked && After(cfg, s0, xs, n + 1).locked
  }

  /** The last m sightings of the confirmed track lie in consecutive frames. */
  predicate BehindIsConsecutive(cfg: Cfg, x: Input, g: State, m: int) {
    && |g.tk.tracks| == |g.tk.hist|
    && var c := Select(cfg, x.fw, x.fh, g.tk, |g.tk.tracks|).idx;
       0 <= c < |g.tk.hist| && Consecutive(g.tk.hist[c], m)
  }

  /** The documented promise: in every run, the ksup supported sightings behind a confirmation lie in
      consecutive frames. */
  ghost predicate SupportIsConsecutive(cfg: Cfg) {
    forall s0, xs, n: nat :: ConfirmsAt(cfg, s0, xs, n) ==>
                               BehindIsConsecutive(cfg, xs[n], After(cfg, s0, xs, n + 1), cfg.ksup)
  }

  // ---------------------------------------------------------------- when it holds

  /** A confirming search step keeps the searched tracks, and the selected one has a history. */
  lemma ConfirmedTracks(cfg: Cfg, st: State, x: Input)
    requires |st.tk.tracks| == |st.tk.hist| && !st.locked && IsOrder(x.order, Confs(x.aug))
    requires Step(cfg, st, x).0.locked
    ensures var tk := Searched(cfg, st, x);
            && Step(cfg, st, x).0.tk == tk && |tk.tracks| == |tk.hist|
            && 0 <= Select(cfg, x.fw, x.fh, tk, |tk.tracks|).idx < |tk.hist|
  {
    hide Searched, AllSights, IsOrder, LastSize;
  }

  lemma ConfirmedIsConsecutive(cfg: Cfg, s0: State, xs: seq<Input>, n: nat)
    requires ConfirmsAt(cfg, s0, xs, n) && NoRoomToSkip(GateParams(cfg), cfg.ksup)
    ensures BehindIsConsecutive(cfg, xs[n], After(cfg, s0, xs, n + 1), cfg.ksup)
  {
    var st := After(cfg, s0, xs, n);
    AfterNext(cfg, s0, xs, n);
    SearchedOk(cfg, st, xs[n]);
    ConfirmedTracks(cfg, st, xs[n]);
    var tk := Searched(cfg, st, xs[n]);
    hide After, Step, Searched, Select, Consecutive, NoRoomToSkip, Chained, AllOk, Fresh, AllSeen, IsOrder;
    HistoriesAreChained(GateParams(cfg), |st.frames|, tk);
    ChainedIsConsecutive(GateParams(cfg), tk.hist[Select(cfg, xs[n].fw, xs[n].fh, tk, |tk.tracks|).idx], cfg.ksup);
  }

  // ---------------------------------------------------------------- the run that skips a frame

  const O := P.Point(0.0, 0.0)

  const DET := GateDet(O, 0.0, 0.0, 0.0, 0)

  const START := State(NONE, [], false, 0, O, 0, None)

  const SILENCE := Input([], [], [], [], 0, 0)

  /** Enough motion at O to support a detection there. */
  function Motion(cfg: Cfg): seq<MotionSample> {
    [MotionSample(O, cfg.rmin)]
  }

  function Blob(cfg: Cfg): GateDet {
    GateDet(O, 0.0, 0.0, cfg.confsky, MOTION_SENTINEL)
  }

  /** The motion at O is also a blob. */
  predicate SeedsHere(cfg: Cfg) {
    cfg.rmin >= cfg.motionRmin && cfg.motionMinpts <= 1
  }

  lemma InReachHere(cfg: Cfg)
    ensures InReach(cfg, Motion(cfg)[0], O)
  {
    assert Dist2(O, O) == 0.0 by { assert Square(0.0) == 0.0; }
    hide Dist2, Square;
    SquareNonNegative(cfg.sampleRad);
  }

  lemma MovedHere(cfg: Cfg)
    ensures Moved(cfg, Motion(cfg), O)
  {
    InReachHere(cfg);
    hide InReach, SampleMax;
    MovedMeans(cfg, Motion(cfg), O, 1);
    assert Motion(cfg)[0].resid >= cfg.rmin;
  }

  lemma OneComponent(cell: real)
    ensures P.Component([O], cell, 0) == {0}
  {
    P.LinkedSelf([O], cell, 0);
  }

  lemma OneExtent(cfg: Cfg)
    ensures Clustering.IsExtentOf(Clustering.Extent(1, 0.0, 0.0, 0.0, 0.0), [O], {0}, BIG)
    ensures BlobDet(cfg, Clustering.Extent(1, 0.0, 0.0, 0.0, 0.0)) == Blob(cfg)
  {
    assert Clustering.Xs([O])[0] == 0.0 && Clustering.Ys([O])[0] == 0.0;
  }

  lemma OneIsChosen(cell: real)
    ensures Clustering.IsChosenComponent([O], cell, 0)
  {
    hide UnionFind.Roots;
    forall j: nat | Clustering.IsLargestComponent([O], cell, j) ensures j == 0 {
    }
  }

  /** A single moving point is a blob by itself when one point is enough. */
  lemma BlobHere(cfg: Cfg)
    ensures HasBlob(cfg, Motion(cfg)) <==> SeedsHere(cfg)
    ensures SeedsHere(cfg) ==> IsBlob(cfg, Motion(cfg), Blob(cfg))
    ensures !HasBlob(cfg, [])
  {
    var pts := MovingPoints(cfg, Motion(cfg), 1);
    assert MovingPoints(cfg, Motion(cfg), 0) == [] && MovingPoints(cfg, [], 0) == [];
    assert pts == if cfg.rmin >= cfg.motionRmin then [O] else [];
    OneComponent(cfg.motionCell);
    OneIsChosen(cfg.motionCell);
    OneExtent(cfg);
    hide Clustering.IsExtentOf, Clustering.IsChosenComponent, P.Component, BlobDet;
  }

  predicate Seeded(cfg: Cfg, fcount: int) {
    cfg.seedOnMotion && fcount >= cfg.motionSilent && SeedsHere(cfg)
  }

  /** A frame with one supported detection at O: the gate's own blob once it is seeded, and otherwise
      an object. */
  function Shown(cfg: Cfg, fcount: int): GateDet {
    if Seeded(cfg, fcount) then Blob(cfg) else DET
  }

  function SteadyInput(cfg: Cfg, fcount: int): Input {
    Input(Motion(cfg), if Seeded(cfg, fcount) then [] else [DET], [Shown(cfg, fcount)], [0], 0, 0)
  }

  lemma SteadyInputOk(cfg: Cfg, fcount: int)
    ensures var x := SteadyInput(cfg, fcount);
            InputOk(cfg, x) && SourcesOk(x.dets) && IsAugmented(cfg, x.motion, x.dets, fcount, x.aug)
  {
    BlobHere(cfg);
    hide HasBlob, IsBlob, SeedsHere;
    var x := SteadyInput(cfg, fcount);
    assert Confs(x.aug) == [x.aug[0].conf];
    assert x.aug[..0] == [];
  }

  lemma SilenceOk(cfg: Cfg, fcount: int)
    ensures InputOk(cfg, SILENCE) && SourcesOk(SILENCE.dets)
    ensures IsAugmented(cfg, SILENCE.motion, SILENCE.dets, fcount, SILENCE.aug)
  {
    BlobHere(cfg);
    hide HasBlob, IsBlob;
    assert Confs([]) == [];
  }

  function SeenSight(cfg: Cfg, fcount: int): Sight {
    ToSight(cfg, Motion(cfg), Shown(cfg, fcount))
  }

  lemma SeenSightIs(cfg: Cfg, fcount: int)
    ensures SeenSight(cfg, fcount).at == O && SeenSight(cfg, fcount).supported
    ensures SeenSight(cfg, fcount).src == MOTION_SENTINEL || SeenSight(cfg, fcount).src >= 0
    ensures var x := SteadyInput(cfg, fcount);
            IsOrder(x.order, Confs(x.aug)) && [SeenSight(cfg, fcount)] == Pick(AllSights(cfg, x.motion, x.aug), x.order)
  {
    MovedHere(cfg);
    SteadyInputOk(cfg, fcount);
    hide Moved, IsProcessed;
  }

  function Needed(cfg: Cfg): int {
    if cfg.amin > cfg.ksup then cfg.amin else cfg.ksup
  }

  /** m - 1 frames with the detection, one without, and one with it. */
  function GapInputs(cfg: Cfg, m: nat): (xs: seq<Input>)
    requires m >= 2
    ensures |xs| == m + 1
    ensures forall i :: 0 <= i <= m ==> xs[i] == if i == m - 1 then SILENCE else SteadyInput(cfg, i + 1)
  {
    seq(m + 1, i => if i == m - 1 then SILENCE else SteadyInput(cfg, i + 1))
  }

  lemma GapEntry(cfg: Cfg, m: nat, i: nat)
    requires m >= 2 && i <= m
    ensures |GapInputs(cfg, m)| == m + 1
    ensures GapInputs(cfg, m)[i] == if i == m - 1 then SILENCE else SteadyInput(cfg, i + 1)
  {
  }

  lemma GapInputsOk(cfg: Cfg, m: nat)
    requires m >= 2
    ensures InputsOk(cfg, GapInputs(cfg, m)) && IsRun(cfg, START, GapInputs(cfg, m))
  {
    var xs := GapInputs(cfg, m);
    forall i: nat | i < |xs|
      ensures InputOk(cfg, xs[i]) && SourcesOk(xs[i].dets)
      ensures IsAugmented(cfg, xs[i].motion, xs[i].dets, i + 1, xs[i].aug)
    {
      hide InputOk, SourcesOk, IsAugmented;
      SteadyInputOk(cfg, i + 1);
      SilenceOk(cfg, i + 1);
    }
    hide InputOk, SourcesOk, IsAugmented, GapInputs;
  }

  /** The sight of frame i of the run. */
  function SightAt(cfg: Cfg, i: nat): Sight {
    SeenSight(cfg, i + 1)
  }

  function Sights(cfg: Cfg, m: nat): seq<Sight> {
    seq(m, i requires 0 <= i < m => SightAt(cfg, i))
  }

  lemma SightsAre(cfg: Cfg, m: nat, i: nat)
    requires i < m
    ensures |Sights(cfg, m)| == m && Sights(cfg, m)[i] == SightAt(cfg, i) == SeenSight(cfg, i + 1)
    ensures Steady(Sights(cfg, m), O)
  {
    hide SeenSight;
    forall j: nat | j < m ensures SightAt(cfg, j).at == O && SightAt(cfg, j).supported {
      SeenSightIs(cfg, j + 1);
    }
    hide SightAt;
  }

  lemma {:induction false} NoneSelected(cfg: Cfg, tk: Tracks, k: nat)
    requires k <= |tk.tracks| == |tk.hist| && forall t :: t in tk.tracks ==> !Eligible(cfg, 0, 0, t)
    ensures Select(cfg, 0, 0, tk, k).idx == -1
  {
    hide Eligible, MaxConf;
    if k == 0 {
    } else {
      NoneSelected(cfg, tk, k - 1);
      assert tk.tracks[k - 1] in tk.tracks;
    }
  }

  /** A search step that ends without an eligible track. */
  lemma StepUnselected(cfg: Cfg, st: State, x: Input, sights: seq<Sight>, tk: Tracks)
    requires |st.tk.tracks| == |st.tk.hist| && IsOrder(x.order, Confs(x.aug)) && !st.locked
    requires x.fw == x.fh == 0 && sights == Pick(AllSights(cfg, x.motion, x.aug), x.order)
    requires tk == Search(GateParams(cfg), |st.frames|, st.tk, sights)
    requires |tk.tracks| == |tk.hist| && forall t :: t in tk.tracks ==> !Eligible(cfg, 0, 0, t)
    ensures var g := Step(cfg, st, x).0; g.tk == tk && !g.locked
  {
    NoneSelected(cfg, tk, |tk.tracks|);
    hide Search, AllSights, IsOrder, Select, Eligible;
  }

  lemma OneSelected(cfg: Cfg, tk: Tracks)
    requires |tk.tracks| == 1 == |tk.hist| && Eligible(cfg, 0, 0, tk.tracks[0]) && tk.tracks[0].sup >= 0
    ensures Select(cfg, 0, 0, tk, 1).idx == 0
  {
    hide Eligible, MaxConf;
    assert Select(cfg, 0, 0, tk, 0) == Selection(-1, -1, -1.0);
  }

  lemma StepSelected(cfg: Cfg, st: State, x: Input, sights: seq<Sight>, tk: Tracks)
    requires |st.tk.tracks| == |st.tk.hist| && IsOrder(x.order, Confs(x.aug)) && !st.locked
    requires x.fw == x.fh == 0 && sights == Pick(AllSights(cfg, x.motion, x.aug), x.order)
    requires tk == Search(GateParams(cfg), |st.frames|, st.tk, sights)
    requires |tk.tracks| == 1 == |tk.hist| && Eligible(cfg, 0, 0, tk.tracks[0]) && tk.tracks[0].sup >= 0
    requires tk.tracks[0].src == MOTION_SENTINEL || tk.tracks[0].src >= 0
    ensures var g := Step(cfg, st, x).0;
            g.tk == tk && g.locked && (BehindIsConsecutive(cfg, x, g, cfg.ksup) <==> Consecutive(tk.hist[0], cfg.ksup))
  {
    OneSelected(cfg, tk);
    hide Search, AllSights, IsOrder, Select, Eligible, Consecutive, LastSize;
  }

  /** While fewer than the needed sightings are in, nothing is eligible. */
  lemma TooFew(cfg: Cfg, ss: seq<Sight>, k: nat)
    requires k <= |ss| && k < Needed(cfg)
    ensures var tk := SteadyTracks(ss, O, k);
            |tk.tracks| == |tk.hist| && forall t :: t in tk.tracks ==> !Eligible(cfg, 0, 0, t)
  {
  }

  /** One more frame with the detection, short of what is needed. */
  lemma SteadyFrame(cfg: Cfg, st: State, x: Input, ss: seq<Sight>, k: nat)
    requires k < |ss| && Steady(ss, O) && k + 1 < Needed(cfg) && GateParams(cfg).dist > 0.0 && GateParams(cfg).maxLost >= 1
    requires st.tk == SteadyTracks(ss, O, k) && !st.locked && |st.frames| == k && |st.tk.tracks| == |st.tk.hist|
    requires IsOrder(x.order, Confs(x.aug)) && [ss[k]] == Pick(AllSights(cfg, x.motion, x.aug), x.order)
    requires x.fw == x.fh == 0
    ensures var g := Step(cfg, st, x).0; g.tk == SteadyTracks(ss, O, k + 1) && !g.locked
  {
    hide *;
    SteadyStep(GateParams(cfg), ss, O, k);
    TooFew(cfg, ss, k + 1);
    StepUnselected(cfg, st, x, [ss[k]], SteadyTracks(ss, O, k + 1));
  }

  lemma SteadyStart(cfg: Cfg, xs: seq<Input>, ss: seq<Sight>)
    requires InputsOk(cfg, xs) && IsReset(START)
    ensures After(cfg, START, xs, 0).tk == SteadyTracks(ss, O, 0) && !After(cfg, START, xs, 0).locked
  {
  }

  predicate MaySkip(cfg: Cfg) {
    GateParams(cfg).dist > 0.0 && GateParams(cfg).maxLost >= 1 && cfg.ksup >= 2
  }

  lemma StartIsReset()
    ensures IsReset(START)
  {
  }

  lemma {:induction false} SteadyRun(cfg: Cfg, m: nat, k: nat)
    requires m == Needed(cfg) >= 2 && MaySkip(cfg) && k <= m - 1
    requires InputsOk(cfg, GapInputs(cfg, m)) && |GapInputs(cfg, m)| == m + 1 && IsReset(START)
    ensures |Sights(cfg, m)| == m
    ensures var g := After(cfg, START, GapInputs(cfg, m), k);
            g.tk == SteadyTracks(Sights(cfg, m), O, k) && !g.locked && |g.frames| == k
  {
    hide *;
    var xs := GapInputs(cfg, m);
    SightsAre(cfg, m, 0);
    FramesCount(cfg, START, xs, k);
    if k == 0 {
      SteadyStart(cfg, xs, Sights(cfg, m));
    } else {
      SteadyRun(cfg, m, k - 1);
      GapEntry(cfg, m, k - 1);
      AfterNext(cfg, START, xs, k - 1);
      SightsAre(cfg, m, k - 1);
      SeenSightIs(cfg, k);
      SteadySizes(cfg, k);
      Allowed(cfg);
      SteadyFrame(cfg, After(cfg, START, xs, k - 1), SteadyInput(cfg, k), Sights(cfg, m), k - 1);
    }
  }

  lemma SteadySizes(cfg: Cfg, fcount: int)
    ensures SteadyInput(cfg, fcount).fw == SteadyInput(cfg, fcount).fh == 0
  {
  }

  lemma Allowed(cfg: Cfg)
    requires MaySkip(cfg)
    ensures GateParams(cfg).dist > 0.0 && GateParams(cfg).maxLost >= 1 && cfg.ksup >= 2
  {
  }

  /** The empty frame. */
  lemma EmptyFrame(cfg: Cfg, st: State, ss: seq<Sight>, k: nat)
    requires 0 < k <= |ss| && Steady(ss, O) && MaySkip(cfg)
    requires st.tk == SteadyTracks(ss, O, k) && !st.locked && |st.frames| == k && |st.tk.tracks| == |st.tk.hist|
    requires IsOrder(SILENCE.order, Confs(SILENCE.aug))
    ensures var g := Step(cfg, st, SILENCE).0; g.tk == Search(GateParams(cfg), k, SteadyTracks(ss, O, k), []) && !g.locked
  {
    var p := GateParams(cfg);
    GapStep(p, ss, O, k, ss[0]);
    var tk := Search(p, k, SteadyTracks(ss, O, k), []);
    assert forall t :: t in tk.tracks ==> !Eligible(cfg, 0, 0, t) by { hide Search, SteadyTracks; }
    assert [] == Pick(AllSights(cfg, SILENCE.motion, SILENCE.aug), SILENCE.order);
    assert |tk.tracks| == |tk.hist|;
    hide *;
    StepUnselected(cfg, st, SILENCE, [], tk);
  }

  lemma GapIsEligible(cfg: Cfg, ss: seq<Sight>, k: nat, s: Sight)
    requires k <= |ss| && k + 1 == Needed(cfg)
    ensures var tk := GapTracks(ss, O, k, s);
            |tk.tracks| == 1 == |tk.hist| && Eligible(cfg, 0, 0, tk.tracks[0]) && tk.tracks[0].sup >= 0
            && tk.tracks[0].src == s.src
  {
  }

  /** The frame after it confirms, on a history with a skipped frame. */
  lemma LastFrame(cfg: Cfg, st: State, x: Input, ss: seq<Sight>, k: nat, s: Sight)
    requires 0 < k <= |ss| && k + 1 == Needed(cfg) && MaySkip(cfg)
    requires s.at == O && s.supported && (s.src == MOTION_SENTINEL || s.src >= 0) && |st.tk.tracks| == |st.tk.hist|
    requires st.tk == Search(GateParams(cfg), k, SteadyTracks(ss, O, k), []) && !st.locked && |st.frames| == k + 1
    requires IsOrder(x.order, Confs(x.aug)) && [s] == Pick(AllSights(cfg, x.motion, x.aug), x.order)
    requires x.fw == x.fh == 0
    ensures var g := Step(cfg, st, x).0; g.locked && !BehindIsConsecutive(cfg, x, g, cfg.ksup)
  {
    hide *;
    Allowed(cfg);
    var tk := GapTracks(ss, O, k, s);
    GapIsEligible(cfg, ss, k, s);
    GapStep(GateParams(cfg), ss, O, k, s);
    GapIsNotConsecutive(ss, O, k, s, cfg.ksup);
    StepSelected(cfg, st, x, [s], tk);
  }

  lemma ConfirmsThere(cfg: Cfg, s0: State, xs: seq<Input>, n: nat)
    requires IsReset(s0) && InputsOk(cfg, xs) && IsRun(cfg, s0, xs) && n < |xs|
    requires !After(cfg, s0, xs, n).locked && After(cfg, s0, xs, n + 1).locked
    ensures ConfirmsAt(cfg, s0, xs, n)
  {
  }

  /** The run confirms in its last frame, on a history that skips the empty one. */
  lemma GapRun(cfg: Cfg, m: nat)
    requires m == Needed(cfg) >= 2 && MaySkip(cfg)
    ensures |GapInputs(cfg, m)| == m + 1 && InputsOk(cfg, GapInputs(cfg, m)) && IsReset(START)
    ensures ConfirmsAt(cfg, START, GapInputs(cfg, m), m)
    ensures !BehindIsConsecutive(cfg, GapInputs(cfg, m)[m], After(cfg, START, GapInputs(cfg, m), m + 1), cfg.ksup)
  {
    hide *;
    var xs := GapInputs(cfg, m);
    StartIsReset();
    GapInputsOk(cfg, m);
    GapEntry(cfg, m, m - 1);
    GapEntry(cfg, m, m);
    SightsAre(cfg, m, 0);
    SteadyRun(cfg, m, m - 1);
    AfterNext(cfg, START, xs, m - 1);
    AfterNext(cfg, START, xs, m);
    FramesCount(cfg, START, xs, m);
    EmptyFrame(cfg, After(cfg, START, xs, m - 1), Sights(cfg, m), m - 1);
    SeenSightIs(cfg, m + 1);
    SteadySizes(cfg, m + 1);
    LastFrame(cfg, After(cfg, START, xs, m), SteadyInput(cfg, m + 1), Sights(cfg, m), m - 1, SeenSight(cfg, m + 1));
    ConfirmsThere(cfg, START, xs, m);
  }

  /** The support behind every confirmation of every run is consecutive exactly when a track may not be
      lost for a frame, or one supported sighting is enough, or nothing is ever associated. */
  lemma ConsecutiveExactly(cfg: Cfg)
    ensures SupportIsConsecutive(cfg) <==> cfg.maxlost <= 0 || cfg.ksup <= 1 || cfg.dist <= 0.0
  {
    if NoRoomToSkip(GateParams(cfg), cfg.ksup) {
      forall s0, xs, n: nat | ConfirmsAt(cfg, s0, xs, n)
        ensures BehindIsConsecutive(cfg, xs[n], After(cfg, s0, xs, n + 1), cfg.ksup)
      {
        ConfirmedIsConsecutive(cfg, s0, xs, n);
      }
    } else {
      hide BehindIsConsecutive, ConfirmsAt;
      GapRun(cfg, Needed(cfg));
    }
  }
}
