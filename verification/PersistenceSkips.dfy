/** The persistence gate: is the support behind a confirmation consecutive? */
module PersistenceSkips {
  import opened Association
  import opened GateTracks
  import opened PersistenceGates
  import opened SkippedFrames

  /** Update n of the run is the one that confirms. */
  ghost predicate ConfirmsAt(p: Params, frames: seq<seq<Detection>>, orders: seq<seq<nat>>, n: nat) {
    && OrdersOk(frames, orders) && n < |frames|
    && !After(p, frames, orders, n).locked && After(p, frames, orders, n + 1).locked
  }

  /** The last m sightings of the confirmed track lie in consecutive frames. */
  predicate BehindIsConsecutive(p: Params, g: State, m: int) {
    var c := FirstReady(p, g.tk.tracks, 0);
    0 <= c < |g.tk.hist| && Consecutive(g.tk.hist[c], m)
  }

  /** The documented promise: in every run, the minSupport supported sightings behind a confirmation
      lie in consecutive frames. */
  ghost predicate SupportIsConsecutive(p: Params) {
    forall frames, orders, n: nat :: ConfirmsAt(p, frames, orders, n) ==>
                                  BehindIsConsecutive(p, After(p, frames, orders, n + 1), p.minSupport)
  }

  lemma ConfirmedIsConsecutive(p: Params, frames: seq<seq<Detection>>, orders: seq<seq<nat>>, n: nat)
    requires ConfirmsAt(p, frames, orders, n) && NoRoomToSkip(p, p.minSupport)
    ensures BehindIsConsecutive(p, After(p, frames, orders, n + 1), p.minSupport)
  {
    var st := After(p, frames, orders, n);
    var tk := ConfirmedTracks(p, st, frames[n], orders[n]);
    hide After, OrdersOk, Consecutive, NoRoomToSkip, Chained;
    var c := FirstReady(p, tk.tracks, 0);
    ChainedIsConsecutive(p, tk.hist[c], p.minSupport);
  }

  lemma ConfirmedTracks(p: Params, st: State, dets: seq<Detection>, order: seq<nat>) returns (tk: Tracks)
    requires StateOk(p, st) && !st.locked && IsOrder(order, Confs(dets)) && Step(p, st, dets, order).0.locked
    ensures tk == Step(p, st, dets, order).0.tk && |tk.tracks| == |tk.hist|
    ensures var c := FirstReady(p, tk.tracks, 0); 0 <= c < |tk.hist| && Chained(p, tk.hist[c])
  {
    SightsAreTheFrames(dets, order);
    SearchStepTracks(p, st, dets, order);
    var sights := Pick(AllSights(dets), order);
    tk := Search(p, |st.frames|, st.tk, sights);
    hide Search, AllOk, Fresh, AllSeen, AllSights, IsOrder;
    SearchOk(p, st.tk, sights, st.frames, AllSights(dets)) by { hide *; StateParts(p, st); SightsAreTheFrames(dets, order); }
    HistoriesAreChained(p, |st.frames|, tk);
  }

  lemma StateParts(p: Params, st: State)
    requires StateOk(p, st) && !st.locked
    ensures AllOk(p, |st.frames| - 1, st.tk) && Fresh(p, st.tk.tracks) && AllSeen(st.tk, st.frames)
  {
  }

  // ---------------------------------------------------------------- the run that skips a frame

  const D := Detection(Point.Point(0.0, 0.0), 0.0, true)

  /** m - 1 frames with the detection, one without, and one with it. */
  function GapFrames(m: nat): (f: seq<seq<Detection>>)
    requires m >= 2
    ensures |f| == m + 1 && forall i :: 0 <= i <= m ==> f[i] == if i == m - 1 then [] else [D]
  {
    seq(m + 1, i => if i == m - 1 then [] else [D])
  }

  function GapOrders(m: nat): (o: seq<seq<nat>>)
    requires m >= 2
    ensures |o| == m + 1 && forall i :: 0 <= i <= m ==> o[i] == if i == m - 1 then [] else [0]
  {
    seq(m + 1, i => if i == m - 1 then [] else [0])
  }

  lemma GapOrdersOk(m: nat)
    requires m >= 2
    ensures OrdersOk(GapFrames(m), GapOrders(m))
  {
    assert Confs([D]) == [0.0] && Confs([]) == [];
  }

  function Sights(m: nat): (ss: seq<Sight>)
    ensures |ss| == m && Steady(ss, D.at) && forall i :: 0 <= i < m ==> ss[i] == ToSight(D, 0)
  {
    seq(m, _ => ToSight(D, 0))
  }

  lemma OneSight()
    ensures IsOrder([0], Confs([D])) && Pick(AllSights([D]), [0]) == [ToSight(D, 0)]
    ensures IsOrder([], Confs([])) && Pick(AllSights([]), []) == []
  {
  }

  /** A search step that ends without a ready track. */
  lemma StepUnready(p: Params, st: State, dets: seq<Detection>, order: seq<nat>, sights: seq<Sight>, tk: Tracks)
    requires |st.tk.tracks| == |st.tk.hist| && IsOrder(order, Confs(dets)) && !st.locked
    requires sights == Pick(AllSights(dets), order) && tk == Search(p, |st.frames|, st.tk, sights)
    requires forall t :: t in tk.tracks ==> !Ready(p, t)
    ensures var g := Step(p, st, dets, order).0; g.tk == tk && !g.locked && |g.frames| == |st.frames| + 1
  {
    hide Search, AllSights, IsOrder;
  }

  lemma StepReady(p: Params, st: State, dets: seq<Detection>, order: seq<nat>, sights: seq<Sight>, tk: Tracks)
    requires |st.tk.tracks| == |st.tk.hist| && IsOrder(order, Confs(dets)) && !st.locked
    requires sights == Pick(AllSights(dets), order) && tk == Search(p, |st.frames|, st.tk, sights)
    requires |tk.tracks| == 1 && Ready(p, tk.tracks[0])
    ensures var g := Step(p, st, dets, order).0; g.tk == tk && g.locked && FirstReady(p, tk.tracks, 0) == 0
  {
    hide Search, AllSights, IsOrder;
  }

  function Needed(p: Params): int {
    if p.minAge > p.minSupport then p.minAge else p.minSupport
  }

  /** While fewer than the needed sightings are in, nothing is ready. */
  lemma TooFew(p: Params, ss: seq<Sight>, at: Point, k: nat)
    requires k <= |ss| && k < Needed(p)
    ensures forall t :: t in SteadyTracks(ss, at, k).tracks ==> !Ready(p, t)
  {
  }

  lemma GapEntries(m: nat, i: nat)
    requires m >= 2 && i <= m
    ensures |GapFrames(m)| == m + 1 == |GapOrders(m)|
    ensures GapFrames(m)[i] == if i == m - 1 then [] else [D]
    ensures GapOrders(m)[i] == if i == m - 1 then [] else [0]
  {
  }

  lemma SightsAre(m: nat, i: nat)
    requires i < m
    ensures |Sights(m)| == m && Sights(m)[i] == ToSight(D, 0) && Steady(Sights(m), D.at)
  {
  }

  /** One more frame with the detection, short of what is needed. */
  lemma SteadyFrame(p: Params, st: State, dets: seq<Detection>, order: seq<nat>, ss: seq<Sight>, at: Point, k: nat)
    requires k < |ss| && Steady(ss, at) && k + 1 < Needed(p) && p.dist > 0.0 && p.maxLost >= 1
    requires st.tk == SteadyTracks(ss, at, k) && !st.locked && |st.frames| == k && |st.tk.tracks| == |st.tk.hist|
    requires IsOrder(order, Confs(dets)) && [ss[k]] == Pick(AllSights(dets), order)
    ensures var g := Step(p, st, dets, order).0; g.tk == SteadyTracks(ss, at, k + 1) && !g.locked
  {
    hide *;
    SteadyStep(p, ss, at, k);
    TooFew(p, ss, at, k + 1);
    StepUnready(p, st, dets, order, [ss[k]], SteadyTracks(ss, at, k + 1));
  }

  lemma SteadyStart(p: Params, frames: seq<seq<Detection>>, orders: seq<seq<nat>>, m: nat)
    requires OrdersOk(frames, orders)
    ensures After(p, frames, orders, 0).tk == SteadyTracks(Sights(m), D.at, 0) && !After(p, frames, orders, 0).locked
  {
  }

  lemma {:induction false} SteadyRun(p: Params, m: nat, k: nat)
    requires m == Needed(p) >= 2 && p.dist > 0.0 && p.maxLost >= 1 && k <= m - 1
    requires OrdersOk(GapFrames(m), GapOrders(m)) && |GapFrames(m)| == m + 1
    ensures |Sights(m)| == m
    ensures var g := After(p, GapFrames(m), GapOrders(m), k); g.tk == SteadyTracks(Sights(m), D.at, k) && !g.locked
  {
    hide *;
    SightsAre(m, 0);
    if k == 0 {
      SteadyStart(p, GapFrames(m), GapOrders(m), m);
    } else {
      var frames, orders := GapFrames(m), GapOrders(m);
      SteadyRun(p, m, k - 1);
      GapEntries(m, k - 1);
      AfterNext(p, frames, orders, k - 1);
      StateShape(p, After(p, frames, orders, k - 1));
      SightsAre(m, k - 1);
      OneSight();
      SteadyFrame(p, After(p, frames, orders, k - 1), [D], [0], Sights(m), D.at, k - 1);
    }
  }

  /** The empty frame. */
  lemma EmptyFrame(p: Params, st: State, ss: seq<Sight>, at: Point, k: nat)
    requires 0 < k <= |ss| && Steady(ss, at) && p.dist > 0.0 && p.maxLost >= 1
    requires st.tk == SteadyTracks(ss, at, k) && !st.locked && |st.frames| == k && |st.tk.tracks| == |st.tk.hist|
    requires IsOrder([], Confs([]))
    ensures var g := Step(p, st, [], []).0; g.tk == Search(p, k, SteadyTracks(ss, at, k), []) && !g.locked
  {
    OneSight();
    GapStep(p, ss, at, k, ss[0]);
    var tk := Search(p, k, SteadyTracks(ss, at, k), []);
    assert forall t :: t in tk.tracks ==> !Ready(p, t);
    hide *;
    StepUnready(p, st, [], [], [], tk);
  }

  /** The frame after it confirms, on a history with a skipped frame. */
  lemma LastFrame(p: Params, st: State, dets: seq<Detection>, order: seq<nat>, ss: seq<Sight>, at: Point, k: nat, s: Sight)
    requires 0 < k <= |ss| && k + 1 == Needed(p) && p.minSupport >= 2 && p.dist > 0.0 && p.maxLost >= 1
    requires s.at == at && s.supported && |st.tk.tracks| == |st.tk.hist|
    requires st.tk == Search(p, k, SteadyTracks(ss, at, k), []) && !st.locked && |st.frames| == k + 1
    requires IsOrder(order, Confs(dets)) && [s] == Pick(AllSights(dets), order)
    ensures var g := Step(p, st, dets, order).0; g.locked && !BehindIsConsecutive(p, g, p.minSupport)
  {
    var tk := GapTracks(ss, at, k, s);
    GapIsReady(p, ss, at, k, s);
    GapStep(p, ss, at, k, s);
    GapIsNotConsecutive(ss, at, k, s, p.minSupport);
    assert BehindIsConsecutive(p, Step(p, st, dets, order).0, p.minSupport) ==> Step(p, st, dets, order).0.tk != tk
      by { hide Step, GapTracks, Consecutive, IsOrder, AllSights; OnlyReady(p, tk); }
    hide *;
    StepReady(p, st, dets, order, [s], tk);
  }

  lemma GapIsReady(p: Params, ss: seq<Sight>, at: Point, k: nat, s: Sight)
    requires k <= |ss| && k + 1 == Needed(p)
    ensures var tk := GapTracks(ss, at, k, s); |tk.tracks| == 1 == |tk.hist| && Ready(p, tk.tracks[0])
  {
  }

  lemma OnlyReady(p: Params, tk: Tracks)
    requires |tk.tracks| == 1 && Ready(p, tk.tracks[0])
    ensures FirstReady(p, tk.tracks, 0) == 0
  {
  }

  lemma ConfirmsThere(p: Params, frames: seq<seq<Detection>>, orders: seq<seq<nat>>, n: nat)
    requires OrdersOk(frames, orders) && n < |frames|
    requires !After(p, frames, orders, n).locked && After(p, frames, orders, n + 1).locked
    ensures ConfirmsAt(p, frames, orders, n)
  {
  }

  /** The run confirms in its last frame, on a history that skips the empty one. */
  lemma GapRun(p: Params, m: nat)
    requires m == Needed(p) >= 2 && p.minSupport >= 2 && p.dist > 0.0 && p.maxLost >= 1
    ensures |GapFrames(m)| == m + 1 && OrdersOk(GapFrames(m), GapOrders(m))
    ensures ConfirmsAt(p, GapFrames(m), GapOrders(m), m)
    ensures !BehindIsConsecutive(p, After(p, GapFrames(m), GapOrders(m), m + 1), p.minSupport)
  {
    hide *;
    var frames, orders := GapFrames(m), GapOrders(m);
    GapEntries(m, m - 1);
    GapEntries(m, m);
    GapOrdersOk(m);
    OneSight();
    SightsAre(m, 0);
    SteadyRun(p, m, m - 1);
    AfterNext(p, frames, orders, m - 1);
    AfterNext(p, frames, orders, m);
    StateShape(p, After(p, frames, orders, m - 1));
    StateShape(p, After(p, frames, orders, m));
    EmptyFrame(p, After(p, frames, orders, m - 1), Sights(m), D.at, m - 1);
    LastFrame(p, After(p, frames, orders, m), [D], [0], Sights(m), D.at, m - 1, ToSight(D, 0));
    ConfirmsThere(p, frames, orders, m);
  }

  /** The support behind every confirmation of every run is consecutive exactly when a track may not be
      lost for a frame, or one supported sighting is enough, or nothing is ever associated. */
  lemma ConsecutiveExactly(p: Params)
    ensures SupportIsConsecutive(p) <==> p.maxLost <= 0 || p.minSupport <= 1 || p.dist <= 0.0
  {
    if NoRoomToSkip(p, p.minSupport) {
      forall frames, orders, n: nat | ConfirmsAt(p, frames, orders, n)
        ensures BehindIsConsecutive(p, After(p, frames, orders, n + 1), p.minSupport)
      {
        ConfirmedIsConsecutive(p, frames, orders, n);
      }
    } else {
      hide BehindIsConsecutive, ConfirmsAt;
      GapRun(p, Needed(p));
    }
  }
}
