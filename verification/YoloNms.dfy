/** YOLO output decoding and greedy non-maximum suppression: yolo_parser.cpp. */
module YoloNms {
  import opened Options
  import opened Boxes
  import C = BoxCells
  import opened Labels
  import opened Sequences

  const MAX_OBJECTS: nat := 256

  datatype Params = Params(numClasses: nat, numProposals: nat, confThreshold: real, iouThreshold: real)

  datatype Letterbox = Letterbox(scale: real, padX: real, padY: real, frameW: int, frameH: int)

  datatype Det = Det(box: Rect, score: real, cls: int)

  datatype DetObject =
    DetObject(left: real, top: real, width: real, height: real, cls: int, confidence: real, trackerId: int,
              labelField: seq<char>)

  // ---------------------------------------------------------------- decoding

  lemma IndexFits(c: nat, n: nat, channels: nat, i: nat)
    requires c < channels && i < n
    ensures 0 <= c * n + i < channels * n
  {
    var d := channels - 1 - c;
    assert channels * n == c * n + n + d * n && d * n >= 0;
  }

  /** The channels-first tensor: 4 box channels, then one per class. */
  predicate TensorOk(output: seq<real>, p: Params) {
    |output| == (4 + p.numClasses) * p.numProposals
  }

  function Channel(output: seq<real>, p: Params, c: nat, i: nat): real
    requires TensorOk(output, p) && c < 4 + p.numClasses && i < p.numProposals
  {
    IndexFits(c, p.numProposals, 4 + p.numClasses, i);
    output[c * p.numProposals + i]
  }

  function Score(output: seq<real>, p: Params, k: nat, i: nat): real
    requires TensorOk(output, p) && k < p.numClasses && i < p.numProposals
  {
    Channel(output, p, 4 + k, i)
  }

  /** The class is the first of the best scores above the threshold, or -1. */
  predicate IsBestClass(output: seq<real>, p: Params, i: nat, n: nat, best: int)
    requires TensorOk(output, p) && i < p.numProposals && n <= p.numClasses
  {
    && -1 <= best < n
    && (best == -1 ==> forall k :: 0 <= k < n ==> Score(output, p, k, i) <= p.confThreshold)
    && (best >= 0 ==>
          && Score(output, p, best, i) > p.confThreshold
          && forall k :: 0 <= k < n ==>
                           && Score(output, p, k, i) <= Score(output, p, best, i)
                           && (k < best ==> Score(output, p, k, i) < Score(output, p, best, i)))
  }

  lemma BestClassUnique(output: seq<real>, p: Params, i: nat, a: int, b: int)
    requires TensorOk(output, p) && i < p.numProposals
    requires IsBestClass(output, p, i, p.numClasses, a) && IsBestClass(output, p, i, p.numClasses, b)
    ensures a == b
  {
  }

  function BestClass(output: seq<real>, p: Params, i: nat, n: nat): (best: int)
    requires TensorOk(output, p) && i < p.numProposals && n <= p.numClasses
    ensures IsBestClass(output, p, i, n, best)
  {
    if n == 0 then -1
    else
      var b := BestClass(output, p, i, n - 1);
      var s := if b < 0 then p.confThreshold else Score(output, p, b, i);
      if Score(output, p, n - 1, i) > s then n - 1 else b
  }

  function Clamp(x: real, limit: int): real {
    Min(limit as real, Max(0.0, x))
  }

  function InvScale(lb: Letterbox): real {
    if lb.scale > 0.0 then 1.0 / lb.scale else 1.0
  }

  /** A network coordinate in clamped frame pixels. */
  function ToFrame(lb: Letterbox, c: real, pad: real, limit: int): real {
    Clamp((c - pad) * InvScale(lb), limit)
  }

  /** From centre form in network pixels to clamped corners in frame pixels. */
  function FrameBox(cx: real, cy: real, w: real, h: real, lb: Letterbox): Rect {
    Rect(ToFrame(lb, cx - w * 0.5, lb.padX, lb.frameW), ToFrame(lb, cy - h * 0.5, lb.padY, lb.frameH),
         ToFrame(lb, cx + w * 0.5, lb.padX, lb.frameW), ToFrame(lb, cy + h * 0.5, lb.padY, lb.frameH))
  }

  /** A frame coordinate back in network pixels. */
  function ToNetwork(lb: Letterbox, x: real, pad: real): real {
    x * lb.scale + pad
  }

  lemma ScaleCancels(lb: Letterbox, n: real)
    requires lb.scale > 0.0
    ensures (n * InvScale(lb)) * lb.scale == n
  {
    assert InvScale(lb) * lb.scale == 1.0;
    assert (n * InvScale(lb)) * lb.scale == n * (InvScale(lb) * lb.scale);
  }

  /** An unclamped coordinate goes back to the network coordinate it came from. */
  lemma CornerInverts(c: real, pad: real, limit: int, lb: Letterbox)
    requires lb.scale > 0.0
    ensures 0.0 < ToFrame(lb, c, pad, limit) < limit as real ==>
              ToNetwork(lb, ToFrame(lb, c, pad, limit), pad) == c
  {
    ScaleCancels(lb, c - pad);
    hide InvScale;
    var x := ToFrame(lb, c, pad, limit);
    if 0.0 < x < limit as real {
      assert x == (c - pad) * InvScale(lb);
    }
  }

  /** Where no clamp is at work, the corners are the network box seen through the inverse letterbox. */
  lemma FrameBoxInverts(cx: real, cy: real, w: real, h: real, lb: Letterbox)
    requires lb.scale > 0.0
    ensures var b := FrameBox(cx, cy, w, h, lb);
            && (0.0 < b.x1 < lb.frameW as real ==> ToNetwork(lb, b.x1, lb.padX) == cx - w * 0.5)
            && (0.0 < b.y1 < lb.frameH as real ==> ToNetwork(lb, b.y1, lb.padY) == cy - h * 0.5)
            && (0.0 < b.x2 < lb.frameW as real ==> ToNetwork(lb, b.x2, lb.padX) == cx + w * 0.5)
            && (0.0 < b.y2 < lb.frameH as real ==> ToNetwork(lb, b.y2, lb.padY) == cy + h * 0.5)
  {
    hide ToFrame, ToNetwork;
    CornerInverts(cx - w * 0.5, lb.padX, lb.frameW, lb);
    CornerInverts(cy - h * 0.5, lb.padY, lb.frameH, lb);
    CornerInverts(cx + w * 0.5, lb.padX, lb.frameW, lb);
    CornerInverts(cy + h * 0.5, lb.padY, lb.frameH, lb);
  }

  /** For every box: v is the exact frame coordinate of c, and it is moved no farther than the frame's edge. */
  lemma ToFrameIs(lb: Letterbox, c: real, pad: real, limit: int, v: real)
    requires lb.scale > 0.0 && limit >= 0 && v * lb.scale + pad == c
    ensures ToFrame(lb, c, pad, limit) == if v < 0.0 then 0.0 else if v > limit as real then limit as real else v
  {
    assert (c - pad) * InvScale(lb) == v by {
      assert InvScale(lb) * lb.scale == 1.0;
      assert (v * lb.scale) * InvScale(lb) == v * (lb.scale * InvScale(lb));
    }
    hide InvScale;
  }

  function DecodeOne(output: seq<real>, p: Params, lb: Letterbox, i: nat): (r: Option<Det>)
    requires TensorOk(output, p) && i < p.numProposals
  {
    var best := BestClass(output, p, i, p.numClasses);
    if best < 0 then None
    else
      var box := FrameBox(Channel(output, p, 0, i), Channel(output, p, 1, i),
                          Channel(output, p, 2, i), Channel(output, p, 3, i), lb);
      if box.x2 <= box.x1 || box.y2 <= box.y1 then None
      else Some(Det(box, Score(output, p, best, i), best))
  }

  function Candidates(output: seq<real>, p: Params, lb: Letterbox, n: nat): seq<Det>
    requires TensorOk(output, p) && n <= p.numProposals
  {
    if n == 0 then []
    else
      var front := Candidates(output, p, lb, n - 1);
      match DecodeOne(output, p, lb, n - 1)
      case None => front
      case Some(d) => front + [d]
  }

  /** The box of proposal i, in centre form in its four channels. */
  function ProposalBox(output: seq<real>, p: Params, lb: Letterbox, i: nat): Rect
    requires TensorOk(output, p) && i < p.numProposals
  {
    FrameBox(Channel(output, p, 0, i), Channel(output, p, 1, i), Channel(output, p, 2, i), Channel(output, p, 3, i), lb)
  }

  /** Some class of proposal i scores above the threshold, and its box is not empty. */
  predicate IsCandidate(output: seq<real>, p: Params, lb: Letterbox, i: nat)
    requires TensorOk(output, p) && i < p.numProposals
  {
    && (exists k :: 0 <= k < p.numClasses && Score(output, p, k, i) > p.confThreshold)
    && (var b := ProposalBox(output, p, lb, i); b.x1 < b.x2 && b.y1 < b.y2)
  }

  /** d is proposal i with its first best class. */
  predicate IsDecoded(output: seq<real>, p: Params, lb: Letterbox, i: nat, d: Det)
    requires TensorOk(output, p) && i < p.numProposals
  {
    && d.box == ProposalBox(output, p, lb, i)
    && 0 <= d.cls < p.numClasses && IsBestClass(output, p, i, p.numClasses, d.cls)
    && d.score == Score(output, p, d.cls, i)
  }

  lemma DecodeOneIs(output: seq<real>, p: Params, lb: Letterbox, i: nat)
    requires TensorOk(output, p) && i < p.numProposals
    ensures var r := DecodeOne(output, p, lb, i);
            (r.Some? <==> IsCandidate(output, p, lb, i)) && (r.Some? ==> IsDecoded(output, p, lb, i, r.value))
  {
    var best := BestClass(output, p, i, p.numClasses);
    assert IsBestClass(output, p, i, p.numClasses, best);
    hide BestClass, Channel, FrameBox, Score;
  }

  /** The candidate list is exactly the proposals with a class above the threshold and a box that is not
      empty, once each and in their order. */
  ghost predicate AreCandidates(output: seq<real>, p: Params, lb: Letterbox, n: nat, c: seq<Det>, idx: seq<nat>)
    requires TensorOk(output, p) && n <= p.numProposals
  {
    && |c| == |idx| && Increasing(idx)
    && (forall j :: 0 <= j < |idx| ==> idx[j] < n && IsDecoded(output, p, lb, idx[j], c[j]))
    && forall i :: 0 <= i < n ==> (i in idx <==> IsCandidate(output, p, lb, i))
  }

  lemma {:induction false} CandidatesExactly(output: seq<real>, p: Params, lb: Letterbox, n: nat) returns (idx: seq<nat>)
    requires TensorOk(output, p) && n <= p.numProposals
    ensures AreCandidates(output, p, lb, n, Candidates(output, p, lb, n), idx)
  {
    hide DecodeOne, IsDecoded, IsCandidate;
    if n == 0 {
      idx := [];
    } else {
      idx := CandidatesExactly(output, p, lb, n - 1);
      DecodeOneIs(output, p, lb, n - 1);
      if DecodeOne(output, p, lb, n - 1).Some? { idx := idx + [n - 1]; }
    }
  }

  predicate InFrame(b: Rect, lb: Letterbox) {
    0.0 <= b.x1 < b.x2 <= lb.frameW as real && 0.0 <= b.y1 < b.y2 <= lb.frameH as real
  }

  predicate DetOk(d: Det, p: Params, lb: Letterbox) {
    InFrame(d.box, lb) && d.score > p.confThreshold && 0 <= d.cls < p.numClasses
  }

  /** A decoded box is not empty and lies inside the frame. */
  lemma DecodedOk(output: seq<real>, p: Params, lb: Letterbox, i: nat)
    requires TensorOk(output, p) && i < p.numProposals && DecodeOne(output, p, lb, i).Some?
    ensures DetOk(DecodeOne(output, p, lb, i).value, p, lb)
  {
    hide BestClass, Channel, Score, InvScale;
  }

  lemma {:induction false} CandidatesOk(output: seq<real>, p: Params, lb: Letterbox, n: nat)
    requires TensorOk(output, p) && n <= p.numProposals
    ensures forall d :: d in Candidates(output, p, lb, n) ==> DetOk(d, p, lb)
  {
    hide DecodeOne, DetOk;
    if n == 0 {
    } else {
      CandidatesOk(output, p, lb, n - 1);
      if DecodeOne(output, p, lb, n - 1).Some? { DecodedOk(output, p, lb, n - 1); }
    }
  }

  /** The class loop for one proposal. */
  method PickClass(output: seq<real>, p: Params, i: nat) returns (best: int, bestS: real)
    requires TensorOk(output, p) && i < p.numProposals
    ensures IsBestClass(output, p, i, p.numClasses, best)
    ensures best >= 0 ==> bestS == Score(output, p, best, i)
  {
    hide Score;
    best, bestS := -1, p.confThreshold;
    for k := 0 to p.numClasses
      invariant IsBestClass(output, p, i, k, best)
      invariant bestS == if best < 0 then p.confThreshold else Score(output, p, best, i)
    {
      var s := Score(output, p, k, i);
      if s > bestS { bestS, best := s, k; }
    }
  }

  /** The proposal loop. */
  method Decode(output: seq<real>, p: Params, lb: Letterbox) returns (cands: seq<Det>)
    requires TensorOk(output, p)
    ensures cands == Candidates(output, p, lb, p.numProposals)
  {
    hide Score, Channel, FrameBox, BestClass, IsBestClass;
    cands := [];
    for i := 0 to p.numProposals
      invariant cands == Candidates(output, p, lb, i)
    {
      var best, bestS := PickClass(output, p, i);
      BestClassUnique(output, p, i, best, BestClass(output, p, i, p.numClasses));
      if best < 0 { continue; }
      var box := FrameBox(Channel(output, p, 0, i), Channel(output, p, 1, i),
                          Channel(output, p, 2, i), Channel(output, p, 3, i), lb);
      if box.x2 <= box.x1 || box.y2 <= box.y1 { continue; }
      cands := cands + [Det(box, bestS, best)];
    }
  }

  // ---------------------------------------------------------------- the sort

  predicate ByScore(c: seq<Det>) {
    forall i, j :: 0 <= i < j < |c| ==> c[i].score >= c[j].score
  }

  /** Any result std::sort may leave: equal scores in either order. */
  predicate IsSorting(c: seq<Det>, of: seq<Det>) {
    ByScore(c) && multiset(c) == multiset(of)
  }

  function InsertByScore(c: seq<Det>, d: Det): (r: seq<Det>)
    ensures multiset(r) == multiset(c) + multiset{d}
  {
    if c == [] || d.score >= c[0].score then [d] + c
    else
      assert c == [c[0]] + c[1..];
      [c[0]] + InsertByScore(c[1..], d)
  }

  lemma {:induction false} InsertKeepsOrder(c: seq<Det>, d: Det)
    requires ByScore(c)
    ensures ByScore(InsertByScore(c, d))
  {
    if c == [] || d.score >= c[0].score {
    } else {
      InsertKeepsOrder(c[1..], d);
      var r := InsertByScore(c[1..], d);
      forall i | 0 <= i < |r| ensures c[0].score >= r[i].score {
        assert r[i] in multiset(r);
        assert r[i] in multiset(c[1..]) || r[i] == d;
      }
    }
  }

  lemma {:induction false} SortingExists(c: seq<Det>) returns (r: seq<Det>)
    ensures IsSorting(r, c)
  {
    if c == [] {
      r := [];
    } else {
      var s := SortingExists(c[..|c| - 1]);
      r := InsertByScore(s, c[|c| - 1]);
      InsertKeepsOrder(s, c[|c| - 1]);
      assert c == c[..|c| - 1] + [c[|c| - 1]];
    }
  }

  // ---------------------------------------------------------------- suppression

  predicate Suppresses(thr: real, a: Det, b: Det) {
    b.cls == a.cls && Iou(a.box, b.box) > thr
  }

  /** On boxes with whole corners suppression compares numbers of unit cells: those of both boxes against
      those of at least one. */
  lemma SuppressionCounts(thr: real, a: Det, b: Det, g: C.Grid, h: C.Grid)
    requires C.ProperGrid(g) && C.ProperGrid(h) && C.Cells(g) + C.Cells(h) != {}
    requires a.box == C.OnGrid(g) && b.box == C.OnGrid(h)
    ensures Suppresses(thr, a, b)
       <==> a.cls == b.cls
            && |C.Cells(g) * C.Cells(h)| as real > thr * (|C.Cells(g) + C.Cells(h)| as real)
  {
    C.ThresholdCounts(g, h, thr);
  }

  /** Candidate a survives when no earlier survivor suppresses it. */
  predicate Survives(c: seq<Det>, thr: real, a: nat)
    requires a < |c|
    decreases a
  {
    forall b :: 0 <= b < a && Survives(c, thr, b) ==> !Suppresses(thr, c[b], c[a])
  }

  /** Survivors among the first n candidates, in order. */
  function Survivors(c: seq<Det>, thr: real, n: nat): (s: seq<nat>)
    requires n <= |c|
    ensures forall i :: 0 <= i < |s| ==> s[i] < n
  {
    if n == 0 then []
    else if Survives(c, thr, n - 1) then Survivors(c, thr, n - 1) + [n - 1]
    else Survivors(c, thr, n - 1)
  }

  lemma {:induction false} SurvivorsAre(c: seq<Det>, thr: real, n: nat)
    requires n <= |c|
    ensures forall a :: 0 <= a < n ==> (a in Survivors(c, thr, n) <==> Survives(c, thr, a))
    ensures Increasing(Survivors(c, thr, n))
  {
    hide Survives;
    if n == 0 {
    } else {
      SurvivorsAre(c, thr, n - 1);
    }
  }

  lemma {:induction false} SurvivorsPrefix(c: seq<Det>, thr: real, m: nat, n: nat)
    requires m <= n <= |c|
    ensures Survivors(c, thr, m) <= Survivors(c, thr, n)
  {
    hide Survives;
    if m >= n {
    } else {
      SurvivorsPrefix(c, thr, m, n - 1);
    }
  }

  /** Two survivors of a class never overlap beyond the threshold, either way round. */
  lemma SurvivorsApart(c: seq<Det>, thr: real, a: nat, b: nat)
    requires a < |c| && b < |c| && a != b && Survives(c, thr, a) && Survives(c, thr, b) && c[a].cls == c[b].cls
    ensures Iou(c[a].box, c[b].box) <= thr
  {
    hide Iou;
    IouSymmetric(c[a].box, c[b].box);
    if a < b { assert !Suppresses(thr, c[a], c[b]); } else { assert !Suppresses(thr, c[b], c[a]); }
  }

  /** A dropped candidate overlaps an earlier survivor of its class that scores at least as high. */
  lemma DroppedIsCovered(c: seq<Det>, thr: real, b: nat)
    requires ByScore(c) && b < |c| && !Survives(c, thr, b)
    ensures exists a :: 0 <= a < b && Survives(c, thr, a) && c[a].cls == c[b].cls
                        && Iou(c[a].box, c[b].box) > thr && c[a].score >= c[b].score
  {
    hide Iou;
  }

  function ToObject(d: Det): DetObject {
    DetObject(d.box.x1, d.box.y1, d.box.x2 - d.box.x1, d.box.y2 - d.box.y1, d.cls, d.score, 0,
              Copied(CocoLabel(d.cls), LABEL_LEN))
  }

  /** An object keeps everything its detection says. */
  lemma ObjectShowsDetection(d: Det)
    ensures var o := ToObject(d);
            && o.left == d.box.x1 && o.top == d.box.y1
            && o.left + o.width == d.box.x2 && o.top + o.height == d.box.y2
            && o.cls == d.cls && o.confidence == d.score && o.trackerId == 0
            && Text(o.labelField) == CocoLabel(d.cls)
  {
    hide Text, CocoLabel;
    LabelReadsBack(d.cls);
  }

  /** The inner loop: candidate a strikes out every later candidate it suppresses. */
  method Strike(c: seq<Det>, thr: real, a: nat, removed: array<bool>)
    requires a < |c| == removed.Length
    modifies removed
    ensures forall b :: a < b < |c| ==> (removed[b] <==> (old(removed[b]) || Suppresses(thr, c[a], c[b])))
    ensures forall b :: 0 <= b <= a ==> removed[b] == old(removed[b])
  {
    hide Iou;
    for b := a + 1 to |c|
      invariant forall j :: a < j < b ==> (removed[j] <==> (old(removed[j]) || Suppresses(thr, c[a], c[j])))
      invariant forall j :: (0 <= j <= a || b <= j < |c|) ==> removed[j] == old(removed[j])
    {
      if !removed[b] && c[b].cls == c[a].cls && Iou(c[a].box, c[b].box) > thr { removed[b] := true; }
    }
  }

  /** Candidate b is suppressed by a survivor before a. */
  predicate Struck(c: seq<Det>, thr: real, a: nat, b: nat)
    requires a <= b < |c|
  {
    exists j :: 0 <= j < a && Survives(c, thr, j) && Suppresses(thr, c[j], c[b])
  }

  lemma StruckStep(c: seq<Det>, thr: real, a: nat, b: nat)
    requires a < b < |c|
    ensures Struck(c, thr, a + 1, b) <==> Struck(c, thr, a, b) || (Survives(c, thr, a) && Suppresses(thr, c[a], c[b]))
  {
    hide Survives, Suppresses;
  }

  lemma StruckDecides(c: seq<Det>, thr: real, a: nat)
    requires a < |c|
    ensures Survives(c, thr, a) <==> !Struck(c, thr, a, a)
  {
    hide Suppresses;
  }

  predicate StruckUpTo(c: seq<Det>, thr: real, a: nat, removed: seq<bool>)
    requires a <= |c| == |removed|
  {
    forall b :: a <= b < |c| ==> (removed[b] <==> Struck(c, thr, a, b))
  }

  lemma StruckUpToStep(c: seq<Det>, thr: real, a: nat, before: seq<bool>, after: seq<bool>)
    requires a < |c| == |before| == |after| && StruckUpTo(c, thr, a, before)
    requires forall b :: a < b < |c| ==>
                           (after[b] <==> (before[b] || (!before[a] && Suppresses(thr, c[a], c[b]))))
    ensures StruckUpTo(c, thr, a + 1, after)
  {
    hide Survives, Suppresses, Struck;
    StruckDecides(c, thr, a);
    forall b | a < b < |c| ensures after[b] <==> Struck(c, thr, a + 1, b) { StruckStep(c, thr, a, b); }
  }

  /** The first k survivors written out. */
  predicate Written(c: seq<Det>, s: seq<nat>, k: nat, out: seq<DetObject>)
    requires k <= |s| && forall i :: 0 <= i < |s| ==> s[i] < |c|
  {
    k <= |out| && forall i :: 0 <= i < k ==> out[i] == ToObject(c[s[i]])
  }

  /** The greedy loop: the first 256 survivors, and whether there were more. */
  method Suppress(c: seq<Det>, thr: real, out: array<DetObject>) returns (kept: nat, over: bool)
    requires out.Length >= MAX_OBJECTS
    modifies out
    ensures var s := Survivors(c, thr, |c|);
            && kept == (if |s| <= MAX_OBJECTS then |s| else MAX_OBJECTS)
            && over == (|s| > MAX_OBJECTS)
            && Written(c, s, kept, out[..])
    ensures forall i :: kept <= i < out.Length ==> out[i] == old(out[i])
  {
    hide Survives, Suppresses, Struck, ToObject;
    var removed := new bool[|c|](_ => false);
    kept, over := 0, false;
    assert StruckUpTo(c, thr, 0, removed[..]) by { NoneStruck(c, thr, removed[..]); }
    for a := 0 to |c|
      invariant kept == |Survivors(c, thr, a)| <= MAX_OBJECTS && !over
      invariant StruckUpTo(c, thr, a, removed[..])
      invariant Written(c, Survivors(c, thr, a), kept, out[..])
      invariant forall i :: kept <= i < out.Length ==> out[i] == old(out[i])
    {
      ghost var before := removed[..];
      StruckDecides(c, thr, a);
      if removed[a] {
        StruckUpToStep(c, thr, a, before, removed[..]);
        continue;
      }
      Strike(c, thr, a, removed);
      StruckUpToStep(c, thr, a, before, removed[..]);
      SurvivorsPrefix(c, thr, a + 1, |c|);
      if kept >= MAX_OBJECTS {
        over := true;
        break;
      }
      out[kept] := ToObject(c[a]);
      kept := kept + 1;
    }
  }

  lemma NoneStruck(c: seq<Det>, thr: real, removed: seq<bool>)
    requires |removed| == |c| && forall b :: 0 <= b < |c| ==> !removed[b]
    ensures StruckUpTo(c, thr, 0, removed)
  {
  }

  // ---------------------------------------------------------------- the whole parser

  function ToRect(o: DetObject): Rect {
    Rect(o.left, o.top, o.left + o.width, o.top + o.height)
  }

  predicate ObjectOk(o: DetObject, p: Params, lb: Letterbox) {
    && InFrame(ToRect(o), lb) && o.confidence > p.confThreshold && 0 <= o.cls < p.numClasses && o.trackerId == 0
    && |o.labelField| == LABEL_LEN && Text(o.labelField) == CocoLabel(o.cls)
  }

  predicate Apart(a: DetObject, b: DetObject, thr: real) {
    a.cls == b.cls ==> Iou(ToRect(a), ToRect(b)) <= thr
  }

  lemma WrittenOk(c: seq<Det>, s: seq<nat>, k: nat, out: seq<DetObject>, p: Params, lb: Letterbox)
    requires k <= |s| && (forall i :: 0 <= i < |s| ==> s[i] < |c|) && Written(c, s, k, out)
    requires forall d :: d in c ==> DetOk(d, p, lb)
    ensures forall i :: 0 <= i < k ==> ObjectOk(out[i], p, lb)
  {
    hide Text, CocoLabel;
    forall i | 0 <= i < k ensures ObjectOk(out[i], p, lb) {
      assert DetOk(c[s[i]], p, lb);
      LabelReadsBack(out[i].cls);
    }
  }

  lemma WrittenApart(c: seq<Det>, of: seq<Det>, thr: real, k: nat, out: seq<DetObject>)
    requires IsSorting(c, of) && k <= |Survivors(c, thr, |c|)| && Written(c, Survivors(c, thr, |c|), k, out)
    ensures forall i, j :: 0 <= i < j < k ==> Apart(out[i], out[j], thr) && out[i].confidence >= out[j].confidence
  {
    var s := Survivors(c, thr, |c|);
    SurvivorsAre(c, thr, |c|);
    hide Survives, Survivors, Iou;
    forall i, j | 0 <= i < j < k
      ensures Apart(out[i], out[j], thr) && out[i].confidence >= out[j].confidence
    {
      assert s[i] in s && s[j] in s && s[i] < s[j];
      assert ToRect(out[i]) == c[s[i]].box && ToRect(out[j]) == c[s[j]].box;
      if c[s[i]].cls == c[s[j]].cls { SurvivorsApart(c, thr, s[i], s[j]); }
    }
  }

  /** yolo_parse. `sorted` is the order in which the sort left the candidates. */
  method YoloParse(output: seq<real>, p: Params, lb: Letterbox, out: array<DetObject>)
    returns (kept: nat, truncated: bool, ghost sorted: seq<Det>)
    requires TensorOk(output, p) && out.Length >= MAX_OBJECTS
    modifies out
    ensures IsSorting(sorted, Candidates(output, p, lb, p.numProposals))
    ensures var s := Survivors(sorted, p.iouThreshold, |sorted|);
            && kept == (if |s| <= MAX_OBJECTS then |s| else MAX_OBJECTS)
            && truncated == (|s| > MAX_OBJECTS)
            && Written(sorted, s, kept, out[..])
    ensures forall i :: 0 <= i < kept ==> ObjectOk(out[i], p, lb)
    ensures forall i, j :: 0 <= i < j < kept ==>
                             Apart(out[i], out[j], p.iouThreshold) && out[i].confidence >= out[j].confidence
    ensures forall i :: kept <= i < out.Length ==> out[i] == old(out[i])
  {
    hide Candidates, DetOk, Survives, Survivors, Written, IsSorting, ObjectOk, Apart;
    var cands := Decode(output, p, lb);
    ghost var example := SortingExists(cands);
    var order: seq<Det> :| IsSorting(order, cands);
    sorted := order;
    kept, truncated := Suppress(order, p.iouThreshold, out);
    CandidatesOk(output, p, lb, p.numProposals);
    SortedOk(order, cands, p, lb);
    WrittenOk(order, Survivors(order, p.iouThreshold, |order|), kept, out[..], p, lb);
    WrittenApart(order, cands, p.iouThreshold, kept, out[..]);
  }

  lemma SortedOk(c: seq<Det>, of: seq<Det>, p: Params, lb: Letterbox)
    requires IsSorting(c, of) && forall d :: d in of ==> DetOk(d, p, lb)
    ensures forall d :: d in c ==> DetOk(d, p, lb)
  {
    forall d | d in c ensures DetOk(d, p, lb) {
      assert d in multiset(of);
    }
  }
}
