/** Greedy per-class IOU tracker: tracker.cpp. */
module Trackers {
  import opened Boxes
  import C = BoxCells

  datatype Params = Params(iouThreshold: real, maxAge: int)

  datatype Box = Box(left: real, top: real, width: real, height: real)

  datatype DetObject = DetObject(box: Box, cls: int, trackerId: int)

  datatype Track = Track(id: int, box: Box, cls: int, age: int)

  function ToRect(b: Box): Rect {
    Rect(b.left, b.top, b.left + b.width, b.top + b.height)
  }

  function BoxIou(a: Box, b: Box): real {
    Iou(ToRect(a), ToRect(b))
  }

  function WholeBox(l: int, t: int, w: nat, h: nat): Box {
    Box(l as real, t as real, w as real, h as real)
  }

  /** The unit cells of a box by its corner and size. */
  function BoxSet(l: int, t: int, w: nat, h: nat): set<(int, int)> {
    C.Cells(C.Grid(l, t, l + w, t + h))
  }

  /** On boxes with whole corners and sizes the threshold test compares numbers of unit cells: those of
      both boxes against those of at least one. */
  lemma MatchCounts(l: int, t: int, w: nat, h: nat, l': int, t': int, w': nat, h': nat, thr: real)
    requires BoxSet(l, t, w, h) + BoxSet(l', t', w', h') != {}
    ensures BoxIou(WholeBox(l, t, w, h), WholeBox(l', t', w', h')) >= thr
       <==> |BoxSet(l, t, w, h) * BoxSet(l', t', w', h')| as real
            >= thr * (|BoxSet(l, t, w, h) + BoxSet(l', t', w', h')| as real)
  {
    hide C.Cells, Iou;
    OnWholeGrid(l, t, w, h);
    OnWholeGrid(l', t', w', h');
    hide ToRect, WholeBox, C.OnGrid;
    C.ThresholdCounts(C.Grid(l, t, l + w, t + h), C.Grid(l', t', l' + w', t' + h'), thr);
  }

  lemma OnWholeGrid(l: int, t: int, w: nat, h: nat)
    ensures ToRect(WholeBox(l, t, w, h)) == C.OnGrid(C.Grid(l, t, l + w, t + h))
  {
  }

  // ---------------------------------------------------------------- specification

  /** `born` lists the class of every id handed out so far: id i belongs to born[i - 1]. */
  datatype State = State(tracks: seq<Track>, nextId: int, born: seq<int>)

  const FRESH := State([], 1, [])

  /** Within one update: the tracks, which of them are taken, and the ids written so far. */
  datatype Frame = Frame(tracks: seq<Track>, matched: seq<bool>, nextId: int, born: seq<int>, ids: seq<int>)

  predicate Eligible(t: Track, matched: bool, o: DetObject) {
    !matched && t.cls == o.cls
  }

  /** The inner scan over the first k tracks: best index and best IOU. */
  function Scan(thr: real, ts: seq<Track>, matched: seq<bool>, o: DetObject, k: nat): (r: (int, real))
    requires k <= |ts| == |matched|
    ensures -1 <= r.0 < k
  {
    if k == 0 then (-1, thr)
    else
      var (b, v) := Scan(thr, ts, matched, o, k - 1);
      var u := BoxIou(o.box, ts[k - 1].box);
      if Eligible(ts[k - 1], matched[k - 1], o) && u >= v then (k - 1, u) else (b, v)
  }

  /** Index `b` is the choice for `o`: the last of the best eligible tracks at the threshold, or -1. */
  predicate IsChoice(thr: real, ts: seq<Track>, matched: seq<bool>, o: DetObject, k: nat, b: int)
    requires k <= |ts| == |matched|
  {
    && -1 <= b < k
    && (b == -1 ==>
          forall j :: 0 <= j < k && Eligible(ts[j], matched[j], o) ==> BoxIou(o.box, ts[j].box) < thr)
    && (b >= 0 ==>
          && Eligible(ts[b], matched[b], o) && BoxIou(o.box, ts[b].box) >= thr
          && forall j :: 0 <= j < k && Eligible(ts[j], matched[j], o) ==>
                           && BoxIou(o.box, ts[j].box) <= BoxIou(o.box, ts[b].box)
                           && (j > b ==> BoxIou(o.box, ts[j].box) < BoxIou(o.box, ts[b].box)))
  }

  lemma {:induction false} ScanFindsChoice(thr: real, ts: seq<Track>, matched: seq<bool>, o: DetObject, k: nat)
    requires k <= |ts| == |matched|
    ensures IsChoice(thr, ts, matched, o, k, Scan(thr, ts, matched, o, k).0)
    ensures var (b, v) := Scan(thr, ts, matched, o, k); v == if b < 0 then thr else BoxIou(o.box, ts[b].box)
  {
    hide BoxIou;
    if k == 0 {
    } else {
      ScanFindsChoice(thr, ts, matched, o, k - 1);
    }
  }

  function AssignOne(thr: real, f: Frame, o: DetObject): Frame
    requires |f.tracks| == |f.matched|
  {
    var b := Scan(thr, f.tracks, f.matched, o, |f.tracks|).0;
    if b >= 0 then
      var t := f.tracks[b];
      Frame(f.tracks[b := Track(t.id, o.box, t.cls, 0)], f.matched[b := true], f.nextId, f.born, f.ids + [t.id])
    else
      Frame(f.tracks + [Track(f.nextId, o.box, o.cls, 0)], f.matched + [true],
            f.nextId + 1, f.born + [o.cls], f.ids + [f.nextId])
  }

  function Unmatched(n: nat): (m: seq<bool>)
    ensures |m| == n && forall i :: 0 <= i < n ==> !m[i]
  {
    seq(n, _ => false)
  }

  function Assigned(thr: real, st: State, objs: seq<DetObject>, i: nat): (f: Frame)
    requires i <= |objs|
    ensures |f.tracks| == |f.matched| && |f.ids| == i
  {
    if i == 0 then Frame(st.tracks, Unmatched(|st.tracks|), st.nextId, st.born, [])
    else AssignOne(thr, Assigned(thr, st, objs, i - 1), objs[i - 1])
  }

  function AgedTrack(t: Track, matched: bool): Track {
    if matched then t else t.(age := t.age + 1)
  }

  function Aged(ts: seq<Track>, matched: seq<bool>): (r: seq<Track>)
    requires |ts| == |matched|
    ensures |r| == |ts| && forall i :: 0 <= i < |r| ==> r[i] == AgedTrack(ts[i], matched[i])
  {
    seq(|ts|, i requires 0 <= i < |ts| => AgedTrack(ts[i], matched[i]))
  }

  /** erase(remove_if(age > maxAge)) on the first k tracks. */
  function Survivors(ts: seq<Track>, maxAge: int, k: nat): (r: seq<Track>)
    requires k <= |ts|
  {
    if k == 0 then []
    else if ts[k - 1].age > maxAge then Survivors(ts, maxAge, k - 1)
    else Survivors(ts, maxAge, k - 1) + [ts[k - 1]]
  }

  function Close(p: Params, f: Frame): State
    requires |f.tracks| == |f.matched|
  {
    var aged := Aged(f.tracks, f.matched);
    State(Survivors(aged, p.maxAge, |aged|), f.nextId, f.born)
  }

  function Updated(p: Params, st: State, objs: seq<DetObject>): State {
    Close(p, Assigned(p.iouThreshold, st, objs, |objs|))
  }

  function Ids(p: Params, st: State, objs: seq<DetObject>): (ids: seq<int>)
    ensures |ids| == |objs|
  {
    Assigned(p.iouThreshold, st, objs, |objs|).ids
  }

  // ---------------------------------------------------------------- the class

  class Tracker {
    const params: Params
    var tracks: seq<Track>
    var nextId: int
    ghost var born: seq<int>

    ghost function Contents(): State
      reads this
    {
      State(tracks, nextId, born)
    }

    constructor (params: Params)
      ensures this.params == params && Contents() == FRESH
    {
      this.params := params;
      tracks, nextId, born := [], 1, [];
    }

    method Reset()
      modifies this
      ensures Contents() == FRESH
    {
      tracks, nextId, born := [], 1, [];
    }

    /** The greedy choice for one object. */
    method FindBest(o: DetObject, matched: seq<bool>) returns (best: int)
      requires |matched| == |tracks|
      ensures best == Scan(params.iouThreshold, tracks, matched, o, |tracks|).0
    {
      hide BoxIou;
      best := -1;
      var bestIou := params.iouThreshold;
      for k := 0 to |tracks|
        invariant (best, bestIou) == Scan(params.iouThreshold, tracks, matched, o, k)
      {
        if matched[k] || tracks[k].cls != o.cls { continue; }
        var v := BoxIou(o.box, tracks[k].box);
        if v >= bestIou { best, bestIou := k, v; }
      }
    }

    /** One object: take the chosen track, or start a new one. */
    method AssignObject(o: DetObject, matched: seq<bool>, ghost ids: seq<int>) returns (id: int, taken: seq<bool>)
      requires |matched| == |tracks|
      modifies this
      ensures Frame(tracks, taken, nextId, born, ids + [id])
              == AssignOne(params.iouThreshold, old(Frame(tracks, matched, nextId, born, ids)), o)
      ensures |taken| == |tracks|
    {
      hide Scan;
      var best := FindBest(o, matched);
      if best >= 0 {
        id := tracks[best].id;
        tracks := tracks[best := Track(id, o.box, tracks[best].cls, 0)];
        taken := matched[best := true];
      } else {
        tracks := tracks + [Track(nextId, o.box, o.cls, 0)];
        taken := matched + [true];
        id, born := nextId, born + [o.cls];
        nextId := nextId + 1;
      }
    }

    /** update: ids are written into the caller's array, tracks move, age and expire. */
    method Update(objects: array<DetObject>, numObjects: nat)
      requires numObjects <= objects.Length
      modifies this, objects
      ensures Contents() == Updated(params, old(Contents()), old(objects[..numObjects]))
      ensures forall i :: 0 <= i < numObjects ==>
                            objects[i] == old(objects[i]).(
                              trackerId := Ids(params, old(Contents()), old(objects[..numObjects]))[i])
      ensures forall i :: numObjects <= i < objects.Length ==> objects[i] == old(objects[i])
    {
      hide AssignOne;
      ghost var objs, st := objects[..numObjects], Contents();
      ghost var ids: seq<int> := [];
      var matched := Unmatched(|tracks|);
      for i := 0 to numObjects
        invariant |matched| == |tracks|
        invariant Frame(tracks, matched, nextId, born, ids) == Assigned(params.iouThreshold, st, objs, i)
        invariant forall j :: 0 <= j < i ==> objects[j] == objs[j].(trackerId := ids[j])
        invariant forall j :: i <= j < objects.Length ==> objects[j] == old(objects[j])
      {
        var o := objects[i];
        var id;
        id, matched := AssignObject(o, matched, ids);
        objects[i] := o.(trackerId := id);
        ids := ids + [id];
      }
      AgeTracks(matched);
      Expire();
    }

    method AgeTracks(matched: seq<bool>)
      requires |matched| == |tracks|
      modifies this`tracks
      ensures tracks == Aged(old(tracks), matched)
    {
      for k := 0 to |tracks|
        invariant |tracks| == |old(tracks)|
        invariant forall j :: 0 <= j < k ==> tracks[j] == AgedTrack(old(tracks)[j], matched[j])
        invariant forall j :: k <= j < |tracks| ==> tracks[j] == old(tracks)[j]
      {
        if !matched[k] { tracks := tracks[k := tracks[k].(age := tracks[k].age + 1)]; }
      }
    }

    method Expire()
      modifies this`tracks
      ensures tracks == Survivors(old(tracks), params.maxAge, |old(tracks)|)
    {
      var keep: seq<Track> := [];
      for k := 0 to |tracks|
        invariant keep == Survivors(tracks, params.maxAge, k)
      {
        if !(tracks[k].age > params.maxAge) { keep := keep + [tracks[k]]; }
      }
      tracks := keep;
    }
  }

  // ---------------------------------------------------------------- one update

  predicate TrackOk(t: Track, nextId: int, born: seq<int>) {
    1 <= t.id < nextId == |born| + 1 && t.cls == born[t.id - 1] && t.age >= 0
  }

  predicate DistinctIds(ts: seq<Track>) {
    forall j, k :: 0 <= j < k < |ts| ==> ts[j].id != ts[k].id
  }

  predicate TracksOk(ts: seq<Track>, nextId: int, born: seq<int>) {
    && nextId == |born| + 1
    && (forall k :: 0 <= k < |ts| ==> TrackOk(ts[k], nextId, born))
    && DistinctIds(ts)
  }

  predicate StateOk(st: State) {
    TracksOk(st.tracks, st.nextId, st.born)
  }

  /** Taken tracks are exactly those whose id was written. */
  predicate Linked(f: Frame) {
    && |f.matched| == |f.tracks|
    && (forall k :: 0 <= k < |f.tracks| ==> (f.matched[k] <==> f.tracks[k].id in f.ids))
    && forall k :: 0 <= k < |f.tracks| && f.matched[k] ==> f.tracks[k].age == 0
  }

  predicate IdsOk(f: Frame, objs: seq<DetObject>) {
    && |f.ids| <= |objs|
    && (forall a :: 0 <= a < |f.ids| ==> 1 <= f.ids[a] <= |f.born| && f.born[f.ids[a] - 1] == objs[a].cls)
    && forall a, b :: 0 <= a < b < |f.ids| ==> f.ids[a] != f.ids[b]
  }

  lemma AssignKeepsTracks(thr: real, f: Frame, o: DetObject)
    requires |f.matched| == |f.tracks| && TracksOk(f.tracks, f.nextId, f.born)
    ensures var g := AssignOne(thr, f, o); TracksOk(g.tracks, g.nextId, g.born) && f.born <= g.born
  {
    hide Scan;
  }

  lemma AssignKeepsIds(thr: real, f: Frame, objs: seq<DetObject>)
    requires |f.matched| == |f.tracks| && TracksOk(f.tracks, f.nextId, f.born)
    requires Linked(f) && IdsOk(f, objs) && |f.ids| < |objs|
    ensures var g := AssignOne(thr, f, objs[|f.ids|]); Linked(g) && IdsOk(g, objs)
  {
    var o := objs[|f.ids|];
    ScanFindsChoice(thr, f.tracks, f.matched, o, |f.tracks|);
    hide Scan, BoxIou;
    var b := Scan(thr, f.tracks, f.matched, o, |f.tracks|).0;
    assert b >= 0 ==> TrackOk(f.tracks[b], f.nextId, f.born) && f.tracks[b].id !in f.ids;
  }

  lemma {:induction false} AssignedOk(thr: real, st: State, objs: seq<DetObject>, i: nat)
    requires i <= |objs| && StateOk(st)
    ensures var f := Assigned(thr, st, objs, i);
            TracksOk(f.tracks, f.nextId, f.born) && Linked(f) && IdsOk(f, objs) && st.born <= f.born
  {
    if i == 0 {
    } else {
      AssignedOk(thr, st, objs, i - 1);
      var f := Assigned(thr, st, objs, i - 1);
      AssignKeepsTracks(thr, f, objs[i - 1]);
      AssignKeepsIds(thr, f, objs);
      hide TracksOk, Linked, IdsOk, AssignOne;
    }
  }

  /** Expiry keeps exactly the tracks of age at most maxAge, in order. */
  lemma {:induction false} SurvivorsAre(ts: seq<Track>, maxAge: int, k: nat)
    requires k <= |ts|
    ensures forall t :: t in Survivors(ts, maxAge, k) <==> t in ts[..k] && t.age <= maxAge
  {
    if k == 0 {
    } else {
      SurvivorsAre(ts, maxAge, k - 1);
      assert ts[..k] == ts[..k - 1] + [ts[k - 1]];
    }
  }

  lemma {:induction false} SurvivorsDistinct(ts: seq<Track>, maxAge: int, k: nat)
    requires k <= |ts| && DistinctIds(ts)
    ensures DistinctIds(Survivors(ts, maxAge, k))
  {
    if k == 0 {
    } else {
      SurvivorsDistinct(ts, maxAge, k - 1);
      SurvivorsAre(ts, maxAge, k - 1);
      var r := Survivors(ts, maxAge, k - 1);
      forall i | 0 <= i < |r| ensures r[i].id != ts[k - 1].id {
        assert r[i] in ts[..k - 1];
        var j :| 0 <= j < k - 1 && ts[j] == r[i];
      }
    }
  }

  lemma SurvivorsOk(ts: seq<Track>, maxAge: int, nextId: int, born: seq<int>)
    requires TracksOk(ts, nextId, born)
    ensures TracksOk(Survivors(ts, maxAge, |ts|), nextId, born)
  {
    SurvivorsAre(ts, maxAge, |ts|);
    SurvivorsDistinct(ts, maxAge, |ts|);
    hide Survivors, TrackOk;
    var r := Survivors(ts, maxAge, |ts|);
    forall i | 0 <= i < |r| ensures TrackOk(r[i], nextId, born) {
      assert r[i] in r;
      var k :| 0 <= k < |ts| && ts[k] == r[i];
    }
  }

  lemma CloseKeepsOk(p: Params, f: Frame)
    requires |f.matched| == |f.tracks| && TracksOk(f.tracks, f.nextId, f.born)
    ensures StateOk(Close(p, f))
  {
    hide Survivors;
    var aged := Aged(f.tracks, f.matched);
    forall k | 0 <= k < |aged| ensures TrackOk(aged[k], f.nextId, f.born) {
      assert TrackOk(f.tracks[k], f.nextId, f.born);
    }
    SurvivorsOk(aged, p.maxAge, f.nextId, f.born);
  }

  /** What one update guarantees about the ids it writes. */
  lemma UpdateOk(p: Params, st: State, objs: seq<DetObject>)
    requires StateOk(st)
    ensures StateOk(Updated(p, st, objs)) && st.born <= Updated(p, st, objs).born
    ensures forall a :: 0 <= a < |objs| ==>
                          && 1 <= Ids(p, st, objs)[a] < Updated(p, st, objs).nextId
                          && Updated(p, st, objs).born[Ids(p, st, objs)[a] - 1] == objs[a].cls
    ensures forall a, b :: 0 <= a < b < |objs| ==> Ids(p, st, objs)[a] != Ids(p, st, objs)[b]
  {
    AssignedOk(p.iouThreshold, st, objs, |objs|);
    CloseKeepsOk(p, Assigned(p.iouThreshold, st, objs, |objs|));
    hide Assigned, Survivors, Aged, Linked;
  }

  // ---------------------------------------------------------------- runs

  function After(p: Params, frames: seq<seq<DetObject>>, n: nat): State
    requires n <= |frames|
  {
    if n == 0 then FRESH else Updated(p, After(p, frames, n - 1), frames[n - 1])
  }

  /** The ids written into frame n of a run that starts at a reset. */
  function IdsAt(p: Params, frames: seq<seq<DetObject>>, n: nat): (ids: seq<int>)
    requires n < |frames|
    ensures |ids| == |frames[n]|
  {
    Ids(p, After(p, frames, n), frames[n])
  }

  lemma {:induction false} AfterOk(p: Params, frames: seq<seq<DetObject>>, n: nat)
    requires n <= |frames|
    ensures StateOk(After(p, frames, n))
  {
    if n == 0 {
    } else {
      AfterOk(p, frames, n - 1);
      UpdateOk(p, After(p, frames, n - 1), frames[n - 1]);
    }
  }

  /** Ids are positive and pairwise distinct within a frame. */
  lemma IdsInAFrame(p: Params, frames: seq<seq<DetObject>>, n: nat)
    requires n < |frames|
    ensures forall a :: 0 <= a < |frames[n]| ==> IdsAt(p, frames, n)[a] >= 1
    ensures forall a, b :: 0 <= a < b < |frames[n]| ==> IdsAt(p, frames, n)[a] != IdsAt(p, frames, n)[b]
  {
    AfterOk(p, frames, n);
    UpdateOk(p, After(p, frames, n), frames[n]);
    hide Updated, Ids;
  }

  lemma {:induction false} BornGrows(p: Params, frames: seq<seq<DetObject>>, m: nat, n: nat)
    requires m <= n <= |frames|
    ensures After(p, frames, m).born <= After(p, frames, n).born
  {
    hide Updated;
    if m >= n {
    } else {
      BornGrows(p, frames, m, n - 1);
      AfterOk(p, frames, n - 1);
      UpdateOk(p, After(p, frames, n - 1), frames[n - 1]);
    }
  }

  lemma IdHasItsClass(p: Params, frames: seq<seq<DetObject>>, n: nat, a: nat)
    requires n < |frames| && a < |frames[n]|
    ensures var born := After(p, frames, n + 1).born;
            var id := IdsAt(p, frames, n)[a];
            1 <= id <= |born| && born[id - 1] == frames[n][a].cls
  {
    AfterOk(p, frames, n);
    UpdateOk(p, After(p, frames, n), frames[n]);
    hide Updated, Ids, TracksOk;
    AfterOk(p, frames, n + 1);
    assert After(p, frames, n + 1) == Updated(p, After(p, frames, n), frames[n]);
    StateCounts(After(p, frames, n + 1));
  }

  lemma StateCounts(st: State)
    requires StateOk(st)
    ensures st.nextId == |st.born| + 1
  {
  }

  /** An id carries one class for the whole run. */
  lemma IdKeepsItsClass(p: Params, frames: seq<seq<DetObject>>, m: nat, a: nat, n: nat, b: nat)
    requires m <= n < |frames| && a < |frames[m]| && b < |frames[n]|
    requires IdsAt(p, frames, m)[a] == IdsAt(p, frames, n)[b]
    ensures frames[m][a].cls == frames[n][b].cls
  {
    hide After, IdsAt;
    IdHasItsClass(p, frames, m, a);
    IdHasItsClass(p, frames, n, b);
    BornGrows(p, frames, m + 1, n + 1);
  }

  // ---------------------------------------------------------------- where an id comes from

  lemma {:induction false} IdsAreStable(thr: real, st: State, objs: seq<DetObject>, i: nat, n: nat)
    requires i <= n <= |objs|
    ensures Assigned(thr, st, objs, i).ids <= Assigned(thr, st, objs, n).ids
  {
    hide Scan;
    if i >= n {
    } else {
      IdsAreStable(thr, st, objs, i, n - 1);
    }
  }

  /** An id in frame n is either newly made, and then no untaken track of the class reached the
      threshold, or it belongs to the last of the best such tracks. */
  lemma IdOrigin(p: Params, frames: seq<seq<DetObject>>, n: nat, i: nat)
    requires n < |frames| && i < |frames[n]|
    ensures var f := Assigned(p.iouThreshold, After(p, frames, n), frames[n], i);
            var o := frames[n][i];
            var id := IdsAt(p, frames, n)[i];
            || (id == f.nextId && IsChoice(p.iouThreshold, f.tracks, f.matched, o, |f.tracks|, -1))
            || (exists b :: 0 <= b < |f.tracks| && f.tracks[b].id == id
                            && IsChoice(p.iouThreshold, f.tracks, f.matched, o, |f.tracks|, b))
  {
    var st := After(p, frames, n);
    var f := Assigned(p.iouThreshold, st, frames[n], i);
    IdsAreStable(p.iouThreshold, st, frames[n], i + 1, |frames[n]|);
    ScanFindsChoice(p.iouThreshold, f.tracks, f.matched, frames[n][i], |f.tracks|);
    hide Scan, IsChoice, After;
  }

  /** A newly made id is above every id of every earlier frame. */
  lemma NewIdIsNew(p: Params, frames: seq<seq<DetObject>>, m: nat, a: nat, n: nat, i: nat)
    requires m < n < |frames| && a < |frames[m]| && i < |frames[n]|
    requires IdsAt(p, frames, n)[i] == Assigned(p.iouThreshold, After(p, frames, n), frames[n], i).nextId
    ensures IdsAt(p, frames, m)[a] < IdsAt(p, frames, n)[i]
  {
    hide After, IdsAt, Assigned, Linked, IdsOk;
    WrittenIdIsKnown(p, frames, m, a, n);
    AfterOk(p, frames, n);
    AssignedOk(p.iouThreshold, After(p, frames, n), frames[n], i);
  }

  // ---------------------------------------------------------------- expiry

  predicate Absent(st: State, id: int) {
    forall t :: t in st.tracks ==> t.id != id
  }

  /** An id known at the start of an update and owned by no track is not written. */
  lemma {:induction false} AbsentStays(thr: real, st: State, objs: seq<DetObject>, i: nat, id: int)
    requires i <= |objs| && StateOk(st) && id < st.nextId && Absent(st, id)
    ensures var f := Assigned(thr, st, objs, i);
            id !in f.ids && f.nextId >= st.nextId && forall t :: t in f.tracks ==> t.id != id
  {
    hide Scan;
    if i == 0 {
    } else {
      AbsentStays(thr, st, objs, i - 1, id);
      var f, g := Assigned(thr, st, objs, i - 1), Assigned(thr, st, objs, i);
      forall t | t in g.tracks ensures t.id != id {
        var k :| 0 <= k < |g.tracks| && g.tracks[k] == t;
        assert k < |f.tracks| ==> f.tracks[k] in f.tracks;
      }
      assert forall k :: 0 <= k < |f.tracks| ==> f.tracks[k] in f.tracks;
    }
  }

  /** Once taken, a track is left alone for the rest of the update. */
  lemma {:induction false} TakenStays(thr: real, st: State, objs: seq<DetObject>, i: nat, n: nat, k: nat)
    requires i <= n <= |objs|
    requires k < |Assigned(thr, st, objs, i).tracks| && Assigned(thr, st, objs, i).matched[k]
    ensures var f, g := Assigned(thr, st, objs, i), Assigned(thr, st, objs, n);
            k < |g.tracks| && g.tracks[k] == f.tracks[k] && g.matched[k]
  {
    if i >= n {
    } else {
      TakenStays(thr, st, objs, i, n - 1, k);
      var g := Assigned(thr, st, objs, n - 1);
      ScanFindsChoice(thr, g.tracks, g.matched, objs[n - 1], |g.tracks|);
      hide Scan, BoxIou;
    }
  }

  /** A track whose id is not written keeps its place and its value through the assignments. */
  lemma {:induction false} UntakenStays(thr: real, st: State, objs: seq<DetObject>, i: nat, k: nat)
    requires i <= |objs| && k < |st.tracks| && st.tracks[k].id !in Assigned(thr, st, objs, i).ids
    ensures var f := Assigned(thr, st, objs, i);
            k < |f.tracks| && f.tracks[k] == st.tracks[k] && !f.matched[k]
  {
    if i == 0 {
    } else {
      var f := Assigned(thr, st, objs, i - 1);
      IdsAreStable(thr, st, objs, i - 1, i);
      assert Assigned(thr, st, objs, i).ids == f.ids + [Assigned(thr, st, objs, i).ids[i - 1]];
      UntakenStays(thr, st, objs, i - 1, k);
      hide Scan;
    }
  }

  /** Closing a frame: track k lives on, one older if it was not taken, unless it is past maxAge. */
  lemma CloseTrack(p: Params, f: Frame, k: nat)
    requires |f.matched| == |f.tracks| && k < |f.tracks| && TracksOk(f.tracks, f.nextId, f.born)
    ensures var t := AgedTrack(f.tracks[k], f.matched[k]);
            if t.age <= p.maxAge then t in Close(p, f).tracks else Absent(Close(p, f), t.id)
  {
    var aged := Aged(f.tracks, f.matched);
    SurvivorsAre(aged, p.maxAge, |aged|);
    hide Survivors;
    assert aged[..|aged|] == aged;
    var t := aged[k];
    assert t in aged;
    if t.age > p.maxAge {
      forall u | u in Close(p, f).tracks ensures u.id != t.id {
        assert u in aged && u.age <= p.maxAge;
        var j :| 0 <= j < |aged| && aged[j] == u;
        assert f.tracks[j].id == u.id && f.tracks[k].id == t.id;
      }
    }
  }

  /** The track is among the state's tracks, or, once past maxAge, its id is gone. */
  predicate Lives(p: Params, st: State, t: Track) {
    if t.age <= p.maxAge then t in st.tracks else Absent(st, t.id)
  }

  /** The track that object a was assigned to, right after its turn. */
  lemma TakenTrack(thr: real, st: State, objs: seq<DetObject>, a: nat) returns (k: nat)
    requires a < |objs|
    ensures var g := Assigned(thr, st, objs, a + 1);
            k < |g.tracks| && g.matched[k] && g.tracks[k] == Track(g.ids[a], objs[a].box, objs[a].cls, 0)
  {
    var f := Assigned(thr, st, objs, a);
    ScanFindsChoice(thr, f.tracks, f.matched, objs[a], |f.tracks|);
    hide Scan, BoxIou;
    var b := Scan(thr, f.tracks, f.matched, objs[a], |f.tracks|).0;
    k := if b < 0 then |f.tracks| else b;
  }

  lemma MatchedLives(p: Params, st: State, objs: seq<DetObject>, a: nat)
    requires a < |objs| && StateOk(st)
    ensures Lives(p, Updated(p, st, objs), Track(Ids(p, st, objs)[a], objs[a].box, objs[a].cls, 0))
  {
    hide Assigned, TracksOk;
    var thr := p.iouThreshold;
    var k := TakenTrack(thr, st, objs, a);
    TakenStays(thr, st, objs, a + 1, |objs|, k);
    IdsAreStable(thr, st, objs, a + 1, |objs|);
    AssignedOk(thr, st, objs, |objs|);
    CloseTrack(p, Assigned(thr, st, objs, |objs|), k);
    AssignedCounts(thr, st, objs, a + 1);
    AssignedCounts(thr, st, objs, |objs|);
  }

  lemma AssignedCounts(thr: real, st: State, objs: seq<DetObject>, i: nat)
    requires i <= |objs|
    ensures var f := Assigned(thr, st, objs, i); |f.tracks| == |f.matched| && |f.ids| == i
  {
  }

  lemma UnmatchedAges(p: Params, st: State, objs: seq<DetObject>, t: Track)
    requires StateOk(st) && t in st.tracks && t.id !in Ids(p, st, objs)
    ensures Lives(p, Updated(p, st, objs), t.(age := t.age + 1))
  {
    var k :| 0 <= k < |st.tracks| && st.tracks[k] == t;
    UntakenStays(p.iouThreshold, st, objs, |objs|, k);
    AssignedOk(p.iouThreshold, st, objs, |objs|);
    CloseTrack(p, Assigned(p.iouThreshold, st, objs, |objs|), k);
    hide Assigned, TracksOk;
  }

  lemma AbsentAfter(p: Params, st: State, objs: seq<DetObject>, id: int)
    requires StateOk(st) && id < st.nextId && Absent(st, id)
    ensures Absent(Updated(p, st, objs), id) && id !in Ids(p, st, objs) && id < Updated(p, st, objs).nextId
  {
    AbsentStays(p.iouThreshold, st, objs, |objs|, id);
    var f := Assigned(p.iouThreshold, st, objs, |objs|);
    var aged := Aged(f.tracks, f.matched);
    SurvivorsAre(aged, p.maxAge, |aged|);
    hide Survivors, Assigned;
    forall u | u in Close(p, f).tracks ensures u.id != id {
      assert u in aged[..|aged|];
      var j :| 0 <= j < |aged| && aged[j] == u;
      assert f.tracks[j] in f.tracks;
    }
  }

  /** An id owned by no track is never written again. */
  lemma {:induction false} DroppedIdNeverReturns(p: Params, frames: seq<seq<DetObject>>, m: nat, n: nat, id: int)
    requires m <= n <= |frames| && id < After(p, frames, m).nextId && Absent(After(p, frames, m), id)
    ensures Absent(After(p, frames, n), id) && id < After(p, frames, n).nextId
    ensures n < |frames| ==> id !in IdsAt(p, frames, n)
  {
    hide Updated, Ids, Absent;
    if m >= n {
    } else {
      DroppedIdNeverReturns(p, frames, m, n - 1, id);
    }
    if m < n {
      AfterOk(p, frames, n - 1);
      AbsentAfter(p, After(p, frames, n - 1), frames[n - 1], id);
    }
    if n < |frames| {
      AfterOk(p, frames, n);
      AbsentAfter(p, After(p, frames, n), frames[n], id);
    }
  }

  predicate UnwrittenBetween(p: Params, frames: seq<seq<DetObject>>, lo: nat, hi: nat, id: int)
    requires hi <= |frames|
  {
    forall m :: lo <= m < hi ==> id !in IdsAt(p, frames, m)
  }

  lemma LivesStep(p: Params, st: State, objs: seq<DetObject>, t: Track)
    requires StateOk(st) && Lives(p, st, t) && t.id < st.nextId && t.id !in Ids(p, st, objs)
    ensures Lives(p, Updated(p, st, objs), t.(age := t.age + 1))
  {
    hide Updated, Ids, StateOk;
    if t.age <= p.maxAge { UnmatchedAges(p, st, objs, t); } else { AbsentAfter(p, st, objs, t.id); }
  }

  lemma {:induction false} WrittenIdIsKnown(p: Params, frames: seq<seq<DetObject>>, n: nat, a: nat, m: nat)
    requires n < m <= |frames| && a < |frames[n]|
    ensures IdsAt(p, frames, n)[a] < After(p, frames, m).nextId
  {
    hide After, IdsAt;
    IdHasItsClass(p, frames, n, a);
    BornGrows(p, frames, n + 1, m);
    AfterOk(p, frames, m);
    StateCounts(After(p, frames, m));
  }

  /** A track written in frame n and then not written for j frames is still there, with its box,
      exactly when j is at most maxAge. */
  lemma {:induction false} TrackLifetime(p: Params, frames: seq<seq<DetObject>>, n: nat, a: nat, j: nat)
    requires n + 1 + j <= |frames| && a < |frames[n]|
    requires UnwrittenBetween(p, frames, n + 1, n + 1 + j, IdsAt(p, frames, n)[a])
    ensures Lives(p, After(p, frames, n + 1 + j), Track(IdsAt(p, frames, n)[a], frames[n][a].box, frames[n][a].cls, j))
    decreases j
  {
    hide Updated, Ids, Lives, StateOk;
    var t := Track(IdsAt(p, frames, n)[a], frames[n][a].box, frames[n][a].cls, j);
    AfterOk(p, frames, n + j);
    if j == 0 {
      MatchedLives(p, After(p, frames, n), frames[n], a);
    } else {
      TrackLifetime(p, frames, n, a, j - 1);
      WrittenIdIsKnown(p, frames, n, a, n + j);
      assert t.id !in IdsAt(p, frames, n + j);
      LivesStep(p, After(p, frames, n + j), frames[n + j], t.(age := j - 1));
    }
  }
}
