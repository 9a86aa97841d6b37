/** The persistence gate said of its histories alone: where each detection of a run goes, and exactly when
    the gate locks. */
module PersistenceHistories {
  import opened Association
  import opened Assignments
  import opened GateTracks
  import opened PersistenceGates

  lemma StepGoesToNearest(p: Params, st: State, dets: seq<Detection>, order: seq<nat>)
    requires StateOk(p, st) && !st.locked && IsOrder(order, Confs(dets))
    ensures forall j :: 0 <= j < |order| ==> order[j] < |AllSights(dets)|
    ensures IsSearched(p, |st.frames|, st.tk.hist, Pick(AllSights(dets), order), Step(p, st, dets, order).0.tk.hist)
  {
    hide *;
    SearchStepTracks(p, st, dets, order);
    SearchGoesToNearest(p, |st.frames|, st.tk, Pick(AllSights(dets), order));
  }

  /** In every run each detection of a search update, in the order of falling confidence, goes to the
      earliest of the nearest tracks without a detection in this frame, and starts a new track exactly
      when none is in range. */
  lemma EachGoesToNearest(p: Params, frames: seq<seq<Detection>>, orders: seq<seq<nat>>, n: nat)
    requires n < |frames| && OrdersOk(frames, orders) && !After(p, frames, orders, n).locked
    ensures IsOrder(orders[n], Confs(frames[n]))
    ensures IsSearched(p, n, After(p, frames, orders, n).tk.hist, Pick(AllSights(frames[n]), orders[n]),
                       After(p, frames, orders, n + 1).tk.hist)
  {
    AfterNext(p, frames, orders, n);
    hide Step, StateOk, IsSearched, AllSights, After;
    StepGoesToNearest(p, After(p, frames, orders, n), frames[n], orders[n]);
  }

  /** History k is the first that ends now with the age and the support demanded. */
  predicate FirstProven(p: Params, now: int, hs: seq<History>, k: nat) {
    && k < |hs| && IsProven(p.minAge, p.minSupport, now, hs[k])
    && forall j :: 0 <= j < k ==> !IsProven(p.minAge, p.minSupport, now, hs[j])
  }

  lemma ReadyIsProven(p: Params, now: int, tk: Tracks, k: nat)
    requires AllOk(p, now, tk) && k < |tk.tracks|
    ensures Ready(p, tk.tracks[k]) <==> IsProven(p.minAge, p.minSupport, now, tk.hist[k])
    ensures |tk.hist[k]| > 0 && tk.hist[k][|tk.hist[k]| - 1].s.src == tk.tracks[k].src
    ensures tk.hist[k][|tk.hist[k]| - 1].s.at == tk.tracks[k].at
  {
    assert TrackOk(p, now, tk.tracks[k], tk.hist[k]);
    CountersDecide(p, now, tk.tracks[k], tk.hist[k], p.minAge, p.minSupport);
    TrackShowsHistory(p, now, tk.tracks[k], tk.hist[k]);
    LastIsTrack(p, now, tk.tracks[k], tk.hist[k]);
    hide TrackOk, IsProven, AllOk;
  }

  lemma FirstReadyIsFirstProven(p: Params, now: int, tk: Tracks, k: nat)
    requires AllOk(p, now, tk)
    ensures FirstProven(p, now, tk.hist, k) <==> k as int == FirstReady(p, tk.tracks, 0)
  {
    forall j: nat | j < |tk.tracks|
      ensures Ready(p, tk.tracks[j]) <==> IsProven(p.minAge, p.minSupport, now, tk.hist[j])
    {
      ReadyIsProven(p, now, tk, j);
    }
    assert |tk.tracks| == |tk.hist|;
    hide Ready, IsProven, AllOk;
    var c := FirstReady(p, tk.tracks, 0);
    if c >= 0 { assert Ready(p, tk.tracks[c]); }
  }

  /** The track taken by an unlocked update that locks, and its detection. */
  lemma SearchStepLocks(p: Params, st: State, dets: seq<Detection>, order: seq<nat>, k: nat)
    requires StateOk(p, st) && !st.locked && IsOrder(order, Confs(dets))
    ensures var (g, r) := Step(p, st, dets, order);
            && (g.locked <==> FirstReady(p, g.tk.tracks, 0) >= 0) && (!g.locked ==> r == -1)
            && (FirstProven(p, |st.frames|, g.tk.hist, k) ==>
                  g.locked && r == g.tk.hist[k][|g.tk.hist[k]| - 1].s.src && g.at == g.tk.hist[k][|g.tk.hist[k]| - 1].s.at)
            && (k as int == FirstReady(p, g.tk.tracks, 0) ==> FirstProven(p, |st.frames|, g.tk.hist, k))
  {
    var all := AllSights(dets);
    SightsAreTheFrames(dets, order);
    SearchOk(p, st.tk, Pick(all, order), st.frames, all);
    var tk := Search(p, |st.frames|, st.tk, Pick(all, order));
    FirstReadyIsFirstProven(p, |st.frames|, tk, k);
    if k < |tk.tracks| { ReadyIsProven(p, |st.frames|, tk, k); }
    hide Search, FirstProven, AllOk, Fresh, AllSeen, IsOrder, Ready;
  }

  ghost predicate HasProven(p: Params, now: int, hs: seq<History>) {
    exists k: nat :: FirstProven(p, now, hs, k)
  }

  /** In every run an unlocked update locks exactly when some track's history ends in this frame with the
      age and the support demanded; it returns, and locks onto, the detection that ends the first such. */
  lemma LocksExactly(p: Params, frames: seq<seq<Detection>>, orders: seq<seq<nat>>, n: nat)
    requires n < |frames| && OrdersOk(frames, orders) && !After(p, frames, orders, n).locked
    ensures var g, r := After(p, frames, orders, n + 1), ResultAt(p, frames, orders, n);
            && (g.locked <==> HasProven(p, n, g.tk.hist)) && (!g.locked ==> r == -1)
            && forall k: nat :: FirstProven(p, n, g.tk.hist, k) ==>
                 r == g.tk.hist[k][|g.tk.hist[k]| - 1].s.src && g.at == g.tk.hist[k][|g.tk.hist[k]| - 1].s.at
  {
    AfterNext(p, frames, orders, n);
    hide Step, StateOk, FirstProven, After;
    var st, g := After(p, frames, orders, n), After(p, frames, orders, n + 1);
    forall k: nat
      ensures FirstProven(p, n, g.tk.hist, k) ==>
                k < |g.tk.hist| && |g.tk.hist[k]| > 0 && g.locked
                && ResultAt(p, frames, orders, n) == g.tk.hist[k][|g.tk.hist[k]| - 1].s.src
                && g.at == g.tk.hist[k][|g.tk.hist[k]| - 1].s.at
    {
      SearchStepLocks(p, st, frames[n], orders[n], k);
      if FirstProven(p, n, g.tk.hist, k) { ProvenIsThere(p, n, g.tk.hist, k); }
    }
    SearchStepLocks(p, st, frames[n], orders[n], 0);
    var c := FirstReady(p, g.tk.tracks, 0);
    if c >= 0 { SearchStepLocks(p, st, frames[n], orders[n], c); }
  }

  lemma ProvenIsThere(p: Params, now: int, hs: seq<History>, k: nat)
    requires FirstProven(p, now, hs, k)
    ensures k < |hs| && |hs[k]| > 0
  {
  }
}
