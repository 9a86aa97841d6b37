/** Which of the three mask candidates a full frame follows, and when the Kalman filter has a vote:
    the middle of track_frame in samurai_tracker.cpp. The filter is held as its four axes. */
module Selection {
  import opened AxisFilter
  import opened Reals
  import B = Boxes
  import C = BoxCells

  datatype MaskBox = MaskBox(x: real, y: real, w: real, h: real, valid: bool)

  const NO_BOX := MaskBox(0.0, 0.0, 0.0, 0.0, false)

  /** A mask of the decoder with its predicted quality. */
  datatype Candidate = Candidate(box: MaskBox, iou: real)

  const NO_CANDIDATE := Candidate(NO_BOX, 0.0)

  type Candidates = c: seq<Candidate> | |c| == 3 witness [NO_CANDIDATE, NO_CANDIDATE, NO_CANDIDATE]

  datatype Config = Config(threshold: int, weight: real, iouThreshold: real, minArea: real)

  /** What selection keeps between frames. */
  datatype Sel = Sel(initiated: bool, axes: Axes, stable: int)

  // ---------------------------------------------------------------- one frame

  function ToRect(b: MaskBox): B.Rect {
    B.Rect(b.x, b.y, b.x + b.w, b.y + b.h)
  }

  function BoxIou(a: MaskBox, b: MaskBox): real {
    if !a.valid || !b.valid then 0.0 else B.Iou(ToRect(a), ToRect(b))
  }

  /** On boxes with whole corners and sizes it is the share of the unit cells in both among those in
      at least one. */
  lemma BoxIouCounts(x: int, y: int, w: nat, h: nat, x': int, y': int, w': nat, h': nat)
    ensures var a, b := C.Cells(C.Grid(x, y, x + w, y + h)), C.Cells(C.Grid(x', y', x' + w', y' + h'));
            BoxIou(WholeMask(x, y, w, h), WholeMask(x', y', w', h')) * (|a + b| as real) == |a * b| as real
  {
    hide C.Cells, B.Iou;
    OnWholeGrid(x, y, w, h);
    OnWholeGrid(x', y', w', h');
    assert WholeMask(x, y, w, h).valid && WholeMask(x', y', w', h').valid;
    hide ToRect, WholeMask, C.OnGrid;
    C.IouCounts(C.Grid(x, y, x + w, y + h), C.Grid(x', y', x' + w', y' + h'));
  }

  function WholeMask(x: int, y: int, w: nat, h: nat): MaskBox {
    MaskBox(x as real, y as real, w as real, h as real, true)
  }

  lemma OnWholeGrid(x: int, y: int, w: nat, h: nat)
    ensures ToRect(WholeMask(x, y, w, h)) == C.OnGrid(C.Grid(x, y, x + w, y + h))
  {
  }

  function Argmax3(v: seq<real>): (b: nat)
    requires |v| == 3
    ensures b < 3
  {
    var b := if v[1] > v[0] then 1 else 0;
    if v[2] > v[b] then 2 else b
  }

  predicate IsFirstMax(v: seq<real>, b: nat) {
    b < |v| && (forall j :: 0 <= j < |v| ==> v[j] <= v[b]) && forall j :: 0 <= j < b ==> v[j] < v[b]
  }

  lemma ArgmaxIsFirstMax(v: seq<real>, b: nat)
    requires |v| == 3
    ensures b == Argmax3(v) <==> IsFirstMax(v, b)
  {
    var a := Argmax3(v);
    if IsFirstMax(v, b) {
      assert v[a] <= v[b] && v[b] <= v[a];
    }
  }

  function Ious(c: Candidates): (v: seq<real>)
    ensures |v| == 3
  {
    seq(3, j requires 0 <= j < 3 => c[j].iou)
  }

  /** The weighted scores of the stable regime. */
  function Votes(weight: real, kfBox: MaskBox, c: Candidates): (v: seq<real>)
    ensures |v| == 3
  {
    seq(3, j requires 0 <= j < 3 => weight * BoxIou(kfBox, c[j].box) + (1.0 - weight) * c[j].iou)
  }

  function Centre(b: MaskBox): (z: seq<real>)
    ensures |z| == 4
  {
    [b.x + b.w / 2.0, b.y + b.h / 2.0, b.w, b.h]
  }

  /** The box the filter stands for. */
  function FilterBox(a: Axes): MaskBox {
    MaskBox(a[0].m - a[2].m / 2.0, a[1].m - a[3].m / 2.0, a[2].m, a[3].m, true)
  }

  /** A filter just started on a box stands for that box. */
  lemma StartedBox(a: Axes, b: MaskBox)
    requires b.valid
    ensures FilterBox(Apply(a, Initiate(Centre(b)))) == b
  {
  }

  /** And the box it stands for is centred on its position. */
  lemma FilterBoxCentre(a: Axes)
    ensures Centre(FilterBox(a)) == [a[0].m, a[1].m, a[2].m, a[3].m]
  {
  }

  function Predicted(s: Sel): Axes {
    Apply(s.axes, Predict(1.0))
  }

  /** The frame starts the filter afresh. */
  predicate Restarts(s: Sel) {
    !s.initiated || s.stable == 0
  }

  /** The filter has a vote. */
  predicate StableRegime(cfg: Config, s: Sel) {
    !Restarts(s) && s.stable >= cfg.threshold
  }

  function Choice(cfg: Config, s: Sel, c: Candidates): (b: nat)
    ensures b < 3
  {
    if StableRegime(cfg, s) then Argmax3(Votes(cfg.weight, FilterBox(Predicted(s)), c)) else Argmax3(Ious(c))
  }

  /** The chosen candidate starts or corrects the filter. */
  predicate Accepts(cfg: Config, s: Sel, c: Candidates) {
    var chosen := c[Choice(cfg, s, c)];
    && chosen.box.valid
    && (!Restarts(s) ==> chosen.iou > cfg.iouThreshold && Predicted(s)[2].m * Predicted(s)[3].m > cfg.minArea)
  }

  function FullFrame(cfg: Config, s: Sel, c: Candidates): Sel {
    var z := Centre(c[Choice(cfg, s, c)].box);
    if Restarts(s) then
      if Accepts(cfg, s, c) then Sel(true, Apply(s.axes, Initiate(z)), 1) else s
    else if Accepts(cfg, s, c) then Sel(true, Apply(Predicted(s), Update(z)), s.stable + 1)
    else Sel(true, Predicted(s), 0)
  }

  /** A frame that does not start the filter leaves it stable exactly when the chosen mask is there, its
      quality is above the threshold, and the box the filter foresees is larger than the least area. */
  lemma CorrectsExactly(cfg: Config, s: Sel, c: Candidates)
    requires !Restarts(s) && s.stable >= 0
    ensures var chosen, foreseen := c[Choice(cfg, s, c)], FilterBox(Apply(s.axes, Predict(1.0)));
            FullFrame(cfg, s, c).stable > 0
            <==> chosen.box.valid && chosen.iou > cfg.iouThreshold && foreseen.w * foreseen.h > cfg.minArea
    ensures FullFrame(cfg, s, c).stable == s.stable + 1 || FullFrame(cfg, s, c).stable == 0
  {
    hide Choice, Apply, Centre;
  }

  // ---------------------------------------------------------------- runs

  datatype Event =
    | Seeded(mask: MaskBox)        // seed_cond_frame, with the box of its mask
    | Full(c: Candidates)
    | FilterOnly                   // a frame without the model
    | Panned(dx: real, dy: real)   // camera motion

  function After(cfg: Config, s: Sel, e: Event): Sel {
    match e
    case Seeded(mask) =>
      if mask.valid then Sel(true, Apply(s.axes, Initiate(Centre(mask))), 1) else s.(stable := 1)
    case Full(c) => FullFrame(cfg, s, c)
    case FilterOnly => if s.initiated then s.(axes := Predicted(s)) else s
    case Panned(dx, dy) => s.(axes := Apply(s.axes, Shift(dx, dy)))
  }

  function At(cfg: Config, s: Sel, es: seq<Event>, n: nat): Sel
    requires n <= |es|
  {
    if n == 0 then s else After(cfg, At(cfg, s, es, n - 1), es[n - 1])
  }

  /** Event k counts towards the streak: an accepting frame, or a seed that leaves the filter running. */
  predicate Counts(cfg: Config, s: Sel, es: seq<Event>, k: nat)
    requires k < |es|
  {
    match es[k]
    case Seeded(mask) => mask.valid || At(cfg, s, es, k).initiated
    case Full(c) => Accepts(cfg, At(cfg, s, es, k), c)
    case _ => false
  }

  /** Event k leaves a streak unbroken. */
  predicate Continues(cfg: Config, s: Sel, es: seq<Event>, k: nat)
    requires k < |es|
  {
    !es[k].Seeded? && (es[k].Full? ==> Counts(cfg, s, es, k))
  }

  /** From event i on the filter has been started or corrected by every full frame up to n. */
  predicate Streak(cfg: Config, s: Sel, es: seq<Event>, i: nat, n: nat)
    requires n <= |es|
  {
    i < n && Counts(cfg, s, es, i) && forall k :: i < k < n ==> Continues(cfg, s, es, k)
  }

  /** Seeds and full frames among the events from i to n. */
  function Frames(es: seq<Event>, i: nat, n: nat): (f: nat)
    requires i <= n <= |es|
  {
    if i == n then 0
    else Frames(es, i, n - 1) + (if es[n - 1].Full? || es[n - 1].Seeded? then 1 else 0)
  }

  /** Some streak of m frames ends at n. */
  ghost predicate HasStreak(cfg: Config, s: Sel, es: seq<Event>, n: nat, m: nat)
    requires n <= |es|
  {
    exists i :: 0 <= i < n && Streak(cfg, s, es, i, n) && Frames(es, i, n) == m
  }

  lemma {:induction false} StreakIsCounted(cfg: Config, s: Sel, es: seq<Event>, i: nat, n: nat)
    requires s.stable >= 0 && n <= |es| && Streak(cfg, s, es, i, n)
    ensures At(cfg, s, es, n).initiated && At(cfg, s, es, n).stable >= Frames(es, i, n) >= 1
  {
    hide Accepts, Choice, Apply, Centre, Predicted;
    StableNonNegative(cfg, s, es, n - 1);
    if i == n - 1 {
      assert Frames(es, i, n) == 1;
    } else {
      assert Continues(cfg, s, es, n - 1);
      StreakIsCounted(cfg, s, es, i, n - 1);
    }
  }

  lemma {:induction false} StableNonNegative(cfg: Config, s: Sel, es: seq<Event>, n: nat)
    requires s.stable >= 0 && n <= |es|
    ensures At(cfg, s, es, n).stable >= 0
  {
    hide Accepts, Choice, Apply, Centre, Predicted;
    if n == 0 {
    } else {
      StableNonNegative(cfg, s, es, n - 1);
    }
  }

  /** stable_frames counts: in every run from a tracker that was never seeded, the running filter has
      been stable for at least m frames exactly when some unbroken streak has m of them. */
  lemma StableIsStreak(cfg: Config, s: Sel, es: seq<Event>, n: nat, m: nat)
    requires !s.initiated && s.stable == 0 && n <= |es| && m >= 1
    ensures At(cfg, s, es, n).initiated && At(cfg, s, es, n).stable >= m <==> HasStreak(cfg, s, es, n, m)
  {
    if HasStreak(cfg, s, es, n, m) {
      var i :| 0 <= i < n && Streak(cfg, s, es, i, n) && Frames(es, i, n) == m;
      StreakIsCounted(cfg, s, es, i, n);
    }
    if At(cfg, s, es, n).initiated && At(cfg, s, es, n).stable >= m {
      CountHasStreak(cfg, s, es, n, m);
    }
  }

  lemma {:induction false} CountHasStreak(cfg: Config, s: Sel, es: seq<Event>, n: nat, m: nat)
    requires !s.initiated && s.stable == 0 && n <= |es| && m >= 1
    requires At(cfg, s, es, n).initiated && At(cfg, s, es, n).stable >= m
    ensures HasStreak(cfg, s, es, n, m)
  {
    hide Accepts, Choice, Apply, Centre, Predicted;
    if n == 0 {
      assert false;
    } else {
      var before, e := At(cfg, s, es, n - 1), es[n - 1];
      if Counts(cfg, s, es, n - 1) && m == 1 {
        assert Frames(es, n - 1, n) == 1;
        assert Streak(cfg, s, es, n - 1, n);
      } else {
        var f := if e.Full? then m - 1 else m;
        CountHasStreak(cfg, s, es, n - 1, f);
        StreakGrows(cfg, s, es, n, f);
      }
    }
  }

  lemma StreakGrows(cfg: Config, s: Sel, es: seq<Event>, n: nat, f: nat)
    requires 0 < n <= |es| && HasStreak(cfg, s, es, n - 1, f) && Continues(cfg, s, es, n - 1)
    ensures HasStreak(cfg, s, es, n, if es[n - 1].Full? then f + 1 else f)
  {
    hide Counts;
    var i :| 0 <= i < n - 1 && Streak(cfg, s, es, i, n - 1) && Frames(es, i, n - 1) == f;
    assert Streak(cfg, s, es, i, n);
  }

  /** The filter has a vote in a full frame exactly when a streak of threshold frames, of one at
      least, leads up to it. */
  lemma VoteNeedsStreak(cfg: Config, s: Sel, es: seq<Event>, n: nat)
    requires !s.initiated && s.stable == 0 && n <= |es|
    ensures StableRegime(cfg, At(cfg, s, es, n))
       <==> HasStreak(cfg, s, es, n, if cfg.threshold >= 1 then cfg.threshold else 1)
  {
    hide HasStreak, At;
    StableAt(cfg, s, es, n);
    StableIsStreak(cfg, s, es, n, if cfg.threshold >= 1 then cfg.threshold else 1);
  }

  lemma StableAt(cfg: Config, s: Sel, es: seq<Event>, n: nat)
    requires s.stable == 0 && n <= |es|
    ensures At(cfg, s, es, n).stable >= 0
  {
    StableNonNegative(cfg, s, es, n);
  }

  // ---------------------------------------------------------------- what the weight can change

  /** With weight 0 the votes are the qualities. */
  lemma NoWeight(kfBox: MaskBox, c: Candidates)
    ensures Votes(0.0, kfBox, c) == Ious(c)
  {
    hide BoxIou;
  }

  /** What candidate b has over candidate j: weight times its gain in overlap with the filter's box, and
      the rest times its gain in quality. */
  function Gains(weight: real, kfBox: MaskBox, c: Candidates, b: nat, j: nat): real
    requires b < 3 && j < 3
  {
    weight * (BoxIou(kfBox, c[b].box) - BoxIou(kfBox, c[j].box)) + (1.0 - weight) * (c[b].iou - c[j].iou)
  }

  /** For every weight, a filter that has a vote shifts the choice by exactly that weight. */
  lemma WeighsGains(cfg: Config, s: Sel, c: Candidates, b: nat)
    requires StableRegime(cfg, s) && b < 3
    ensures b == Choice(cfg, s, c)
       <==> forall j: nat :: j < 3 ==>
              && Gains(cfg.weight, FilterBox(Predicted(s)), c, b, j) >= 0.0
              && (j < b ==> Gains(cfg.weight, FilterBox(Predicted(s)), c, b, j) > 0.0)
  {
    hide BoxIou, FilterBox, Predicted, Argmax3, Votes, Gains;
    var kf := FilterBox(Predicted(s));
    var v := Votes(cfg.weight, kf, c);
    ArgmaxIsFirstMax(v, b);
    forall j: nat | j < 3 ensures v[b] - v[j] == Gains(cfg.weight, kf, c, b, j) {
      VoteGains(cfg.weight, kf, c, b, j);
    }
  }

  lemma VoteAt(weight: real, kfBox: MaskBox, c: Candidates, j: nat)
    requires j < 3
    ensures Votes(weight, kfBox, c)[j] == Times(weight, BoxIou(kfBox, c[j].box)) + Times(1.0 - weight, c[j].iou)
  {
    hide BoxIou;
  }

  lemma GainsAre(weight: real, kfBox: MaskBox, c: Candidates, b: nat, j: nat)
    requires b < 3 && j < 3
    ensures Gains(weight, kfBox, c, b, j)
         == Times(weight, BoxIou(kfBox, c[b].box) - BoxIou(kfBox, c[j].box)) + Times(1.0 - weight, c[b].iou - c[j].iou)
  {
    hide BoxIou;
  }

  lemma VoteGains(weight: real, kfBox: MaskBox, c: Candidates, b: nat, j: nat)
    requires b < 3 && j < 3
    ensures Votes(weight, kfBox, c)[b] - Votes(weight, kfBox, c)[j] == Gains(weight, kfBox, c, b, j)
  {
    hide BoxIou, Votes, Gains, Times;
    VoteAt(weight, kfBox, c, b);
    VoteAt(weight, kfBox, c, j);
    GainsAre(weight, kfBox, c, b, j);
    TimesOfDifference(weight, BoxIou(kfBox, c[b].box), BoxIou(kfBox, c[j].box));
    TimesOfDifference(1.0 - weight, c[b].iou, c[j].iou);
  }

  lemma TimesOfDifference(k: real, p: real, q: real)
    ensures Times(k, p - q) == Times(k, p) - Times(k, q)
  {
  }

  /** With weight 1 a filter that has a vote decides alone: the first of the candidates that overlap
      its box most is chosen. */
  lemma FollowsFilter(cfg: Config, s: Sel, c: Candidates, b: nat)
    requires StableRegime(cfg, s) && cfg.weight == 1.0
    ensures b == Choice(cfg, s, c)
       <==> IsFirstMax(seq(3, j requires 0 <= j < 3 => BoxIou(FilterBox(Predicted(s)), c[j].box)), b)
  {
    hide BoxIou, FilterBox, Predicted, IsFirstMax, Argmax3;
    var overlaps := seq(3, j requires 0 <= j < 3 => BoxIou(FilterBox(Predicted(s)), c[j].box));
    assert Votes(cfg.weight, FilterBox(Predicted(s)), c) == overlaps;
    ArgmaxIsFirstMax(overlaps, b);
  }

  /** Without a vote the first of the candidates of highest quality is chosen. */
  lemma FollowsMasks(cfg: Config, s: Sel, c: Candidates, b: nat)
    requires !StableRegime(cfg, s) || cfg.weight == 0.0
    ensures b == Choice(cfg, s, c) <==> IsFirstMax(Ious(c), b)
  {
    hide BoxIou, FilterBox, Predicted, IsFirstMax, Argmax3, StableRegime;
    ArgmaxIsFirstMax(Ious(c), b);
    if cfg.weight == 0.0 { NoWeight(FilterBox(Predicted(s)), c); }
  }

  /** Event k is decided by the masks alone. */
  predicate MaskLed(cfg: Config, s: Sel, es: seq<Event>, k: nat)
    requires k < |es|
  {
    es[k].Full? ==> !StableRegime(cfg, At(cfg, s, es, k)) || cfg.weight == 0.0
  }

  lemma MaskLedChoice(cfg: Config, s: Sel, es: seq<Event>, k: nat)
    requires k < |es| && es[k].Full? && MaskLed(cfg, s, es, k)
    ensures Choice(cfg, At(cfg, s, es, k), es[k].c) == Argmax3(Ious(es[k].c))
  {
    hide Votes, Ious, At, Predicted, FilterBox;
    if StableRegime(cfg, At(cfg, s, es, k)) {
      NoWeight(FilterBox(Predicted(At(cfg, s, es, k))), es[k].c);
    }
  }

  predicate SameChoice(p: Config, q: Config, s: Sel, e: Event) {
    e.Full? ==> Choice(p, s, e.c) == Choice(q, s, e.c)
  }

  lemma SameEvent(p: Config, q: Config, s: Sel, e: Event)
    requires p.iouThreshold == q.iouThreshold && p.minArea == q.minArea && SameChoice(p, q, s, e)
    ensures After(p, s, e) == After(q, s, e)
  {
    hide Choice, Predicted, Apply, Centre;
  }

  /** Two trackers that differ only in the weight and in the stable threshold go through the same
      states and choices as long as neither gives its filter a vote that weighs anything. */
  lemma {:induction false} SameUntilVote(p: Config, q: Config, s: Sel, es: seq<Event>, n: nat)
    requires p.iouThreshold == q.iouThreshold && p.minArea == q.minArea && n <= |es|
    requires forall k :: 0 <= k < n ==> MaskLed(p, s, es, k) && MaskLed(q, s, es, k)
    ensures At(p, s, es, n) == At(q, s, es, n)
    ensures forall k :: 0 <= k < n ==> SameChoice(p, q, At(p, s, es, k), es[k])
  {
    hide After, Choice, MaskLed;
    if n == 0 {
    } else {
      SameUntilVote(p, q, s, es, n - 1);
      assert MaskLed(p, s, es, n - 1) && MaskLed(q, s, es, n - 1);
      if es[n - 1].Full? {
        MaskLedChoice(p, s, es, n - 1);
        MaskLedChoice(q, s, es, n - 1);
      }
      SameEvent(p, q, At(p, s, es, n - 1), es[n - 1]);
    }
  }

  // ---------------------------------------------------------------- rejected corrections

  /** When no candidate's quality exceeds the threshold but the best is always a valid box, every
      other frame starts the filter afresh and the others throw the start away. */
  lemma {:induction false} RejectionAlternates(cfg: Config, s: Sel, es: seq<Event>, n: nat)
    requires s.initiated && s.stable == 1 && n <= |es|
    requires forall k :: 0 <= k < n ==> es[k].Full? && es[k].c[Argmax3(Ious(es[k].c))].box.valid
    requires forall k, j :: 0 <= k < n && 0 <= j < 3 ==> es[k].Full? && es[k].c[j].iou <= cfg.iouThreshold
    ensures At(cfg, s, es, n).initiated && At(cfg, s, es, n).stable == if n % 2 == 0 then 1 else 0
  {
    hide Ious, Argmax3, Votes, Apply, Centre, Predicted, FilterBox;
    if n == 0 {
    } else {
      RejectionAlternates(cfg, s, es, n - 1);
      var c := es[n - 1].c;
      assert c[Choice(cfg, At(cfg, s, es, n - 1), c)].iou <= cfg.iouThreshold;
    }
  }
}
