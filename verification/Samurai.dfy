/** The SAM2 tracker as one object: the Kalman filter, the candidate selection and the memory rings that
    track_frame of samurai_tracker.cpp moves together. What the engines compute is an input. */
module Samurai {
  import opened Options
  import opened KalmanBoxes
  import opened MemoryRing
  import opened Selection
  import opened AxisFilter

  /** What the mask decoder says of a frame: objectness, None when it is not finite, and three masks with
      their boxes in frame pixels and their predicted qualities. */
  datatype Decoded = Decoded(objScore: Option<real>, masks: Candidates)

  /** What a frame leaves in the memory. */
  datatype Memo = Memo(feature: Feature, pointer: Feature)

  datatype Engines =
    | NoDecode                                            // an engine failed before the selection
    | Decode(d: Decoded, encoded: seq<Option<Memo>>)      // for each choice, None where the encoder fails

  predicate EnginesOk(e: Engines) {
    e.Decode? ==> |e.encoded| == 3
  }

  datatype TrackBox = TrackBox(left: real, top: real, width: real, height: real, score: Option<real>, valid: bool)

  datatype TrackResult = TrackResult(box: TrackBox, kfBox: MaskBox, stableFrames: int)

  function Appearing(d: Decoded): bool {
    d.objScore.Some? && d.objScore.value > -1.0
  }

  /** Masks count only while the target is in view. */
  function InView(d: Decoded): Candidates {
    seq(3, j requires 0 <= j < 3 => if Appearing(d) then d.masks[j] else d.masks[j].(box := NO_BOX))
  }

  function FromMask(b: MaskBox, score: Option<real>): TrackBox {
    TrackBox(b.x, b.y, b.w, b.h, score, true)
  }

  /** The memo that the frame stores, if any. */
  function Stored(cfg: Config, s: Sel, e: Engines): Option<Memo>
    requires EnginesOk(e)
  {
    if e.NoDecode? || e.d.objScore.None? then None else e.encoded[Choice(cfg, s, InView(e.d))]
  }

  /** The loop over the weighted scores. */
  method Weigh(weight: real, kfBox: MaskBox, c: Candidates) returns (votes: seq<real>)
    ensures votes == Votes(weight, kfBox, c)
  {
    hide BoxIou;
    votes := [];
    for j := 0 to 3
      invariant |votes| == j && forall k :: 0 <= k < j ==> votes[k] == Votes(weight, kfBox, c)[k]
    {
      votes := votes + [weight * BoxIou(kfBox, c[j].box) + (1.0 - weight) * c[j].iou];
    }
  }

  class SamuraiTracker {
    const kf: KalmanBox
    const memory: Memory
    const cfg: Config
    var stable: int
    var last: TrackBox

    ghost predicate Valid()
      reads this, kf, memory, memory.device
    {
      kf.Valid() && memory.Valid()
    }

    /** The part of the state that selection depends on. */
    ghost function Selecting(): Sel
      reads this, kf
    {
      Sel(kf.initiated, kf.axes, stable)
    }

    constructor (kf: KalmanBox, memory: Memory, cfg: Config, last: TrackBox)
      requires kf.Valid() && !kf.initiated && memory.Valid()
      ensures Valid() && this.kf == kf && this.memory == memory && this.cfg == cfg && this.last == last
      ensures Selecting() == Sel(false, kf.axes, 0)
    {
      this.kf, this.memory, this.cfg, this.last := kf, memory, cfg, last;
      stable := 0;
    }

    /** seed_cond_frame after its engines: the box of the mask, or the given one when it is empty. */
    method Seed(box: TrackBox, mask: MaskBox, score: Option<real>, feature: Feature, pointer: Feature)
      requires Valid()
      modifies this, kf, memory, memory.device
      ensures Valid() && Selecting() == After(cfg, old(Selecting()), Seeded(mask))
      ensures last == if mask.valid then FromMask(mask, score) else box.(score := score, valid := true)
      ensures memory.features == [] && memory.pointers == [] && memory.frameIdx == 0
      ensures memory.device[COND] == feature && memory.condObjPtr == pointer
    {
      hide Apply, RingOk, Represents, AllPsd;
      last := box.(score := score, valid := true);
      if mask.valid {
        last := FromMask(mask, score);
        kf.Initiate(Centre(mask));
      }
      stable := 1;
      memory.Seed(feature, pointer);
    }

    /** A frame without the model: the filter alone moves the box. */
    method FilterFrame() returns (out: TrackBox)
      requires Valid()
      modifies this, kf
      ensures Valid() && Selecting() == After(cfg, old(Selecting()), FilterOnly)
      ensures last == out
      ensures out == if old(kf.initiated) then FromMask(FilterBox(kf.axes), Some(1.0)) else old(last)
    {
      hide Apply, RingOk, Represents, AllPsd;
      if kf.initiated {
        kf.Predict(1.0);
        var cx, cy, w, h := kf.Box();
        last := TrackBox(cx - w / 2.0, cy - h / 2.0, w, h, Some(1.0), true);
      }
      out := last;
    }

    /** apply_gmc once a shift is trusted. */
    method Pan(dx: real, dy: real)
      requires Valid()
      modifies this`last, kf
      ensures Valid() && Selecting() == After(cfg, old(Selecting()), Panned(dx, dy))
      ensures last == old(last).(left := old(last).left + dx, top := old(last).top + dy)
    {
      hide Apply, RingOk, Represents, AllPsd;
      last := last.(left := last.left + dx, top := last.top + dy);
      kf.Shift(dx, dy);
    }

    /** The regimes of track_frame. */
    method Select(c: Candidates) returns (sel: nat, kfBox: MaskBox)
      requires Valid()
      modifies this`stable, kf
      ensures Valid() && Selecting() == FullFrame(cfg, old(Selecting()), c)
      ensures sel == Choice(cfg, old(Selecting()), c)
      ensures kfBox == if Restarts(old(Selecting())) then NO_BOX else FilterBox(Predicted(old(Selecting())))
    {
      hide Apply, RingOk, Represents, AllPsd, BoxIou, Argmax3, Votes, Ious, Centre, KalmanBox.Valid, Memory.Valid;
      kfBox := NO_BOX;
      if !kf.initiated || stable == 0 {
        sel := Argmax3(Ious(c));
        if c[sel].box.valid {
          kf.Initiate(Centre(c[sel].box));
          stable := 1;
        }
      } else {
        kf.Predict(1.0);
        var cx, cy, w, h := kf.Box();
        kfBox := MaskBox(cx - w / 2.0, cy - h / 2.0, w, h, true);
        if stable < cfg.threshold {
          sel := Argmax3(Ious(c));
        } else {
          var votes := Weigh(cfg.weight, kfBox, c);
          sel := Argmax3(votes);
        }
        if c[sel].iou > cfg.iouThreshold && w * h > cfg.minArea && c[sel].box.valid {
          kf.Update(Centre(c[sel].box));
          stable := stable + 1;
        } else {
          stable := 0;
        }
      }
    }

    /** One full frame: the memory is read, the selection moves the filter and the box, and the
        feature of the choice is remembered unless the objectness is not finite or an engine fails. */
    method TrackFrame(e: Engines) returns (ok: bool, out: TrackResult, mm: seq<nat>, objpack: seq<Feature>)
      requires Valid() && EnginesOk(e)
      modifies this, kf, memory, memory.device
      ensures Valid() && memory.frameIdx == old(memory.frameIdx) + 1
      ensures memory.condObjPtr == old(memory.condObjPtr) && memory.device[COND] == old(memory.device[COND])
      ensures |mm| == SLOTS + 1 && mm[0] == COND && forall s :: 0 <= s < |mm| ==> mm[s] < memory.device.Length
      ensures Named(old(memory.device[..]), mm[1..])
           == SlotReads(old(memory.features), old(memory.device[COND]), SLOTS)
      ensures |objpack| == POINTERS + 1 && objpack[0] == memory.condObjPtr
      ensures Reverse(objpack[1..]) == SlotReads(old(memory.pointers), memory.condObjPtr, POINTERS)
      ensures e.NoDecode? ==> !ok && Selecting() == old(Selecting()) && last == old(last)
      ensures e.Decode? ==>
                var s, c := old(Selecting()), InView(e.d);
                var b := c[Choice(cfg, s, c)].box;
                && Selecting() == FullFrame(cfg, s, c)
                && last == (if b.valid then FromMask(b, e.d.objScore) else old(last))
                && out == TrackResult(last, if Restarts(s) then NO_BOX else FilterBox(Predicted(s)), stable)
      ensures ok <==> e.Decode? && (e.d.objScore.None? || Stored(cfg, old(Selecting()), e).Some?)
      ensures var stored := Stored(cfg, old(Selecting()), e);
              if stored.Some? then
                && memory.features == old(memory.features) + [stored.value.feature]
                && memory.pointers == old(memory.pointers) + [stored.value.pointer]
              else
                && memory.device[..] == old(memory.device[..]) && memory.ringDev == old(memory.ringDev)
                && memory.ringObjptr == old(memory.ringObjptr)
                && memory.features == old(memory.features) && memory.pointers == old(memory.pointers)
    {
      hide Apply, RingOk, Represents, AllPsd, Choice, FullFrame, FilterBox, Predicted, SlotReads, Window, InView;
      memory.frameIdx := memory.frameIdx + 1;
      mm, objpack := memory.Assemble();
      ok, out := false, TrackResult(last, NO_BOX, stable);
      if e.NoDecode? { return; }
      var c := InView(e.d);
      var sel, kfBox := Select(c);
      if c[sel].box.valid { last := FromMask(c[sel].box, e.d.objScore); }
      out := TrackResult(last, kfBox, stable);
      if e.d.objScore.None? {
        ok := true;
        return;
      }
      match e.encoded[sel]
      case None =>
      case Some(m) =>
        memory.Remember(m.feature, m.pointer);
        ok := true;
    }
  }

  /** A frame whose objectness is not finite shows no candidate, so it never corrects the filter. */
  lemma NotFiniteNeverAccepts(cfg: Config, s: Sel, d: Decoded)
    requires d.objScore.None?
    ensures !Accepts(cfg, s, InView(d))
  {
    hide Choice;
  }
}
