/** The PTS merge-join of the detection and flow branches (gst_nvmm_fusion_aggregate). */
module Fusion {
  import opened Options

  /** A buffer: its PTS, None for GST_CLOCK_TIME_NONE, and what it carries. */
  datatype Buffer = Buffer(pts: Option<nat>, payload: int)

  datatype Flow = OK | NEED_DATA | EOS

  /** Both stamps are valid and differ. */
  predicate Mismatch(d: Buffer, f: Buffer) {
    d.pts.Some? && f.pts.Some? && d.pts != f.pts
  }

  /** The join of two streams from their heads on. */
  function Join(d: seq<Buffer>, f: seq<Buffer>): seq<(Buffer, Buffer)>
    decreases |d| + |f|
  {
    if d == [] || f == [] then []
    else if Mismatch(d[0], f[0]) then
      if d[0].pts.value < f[0].pts.value then Join(d[1..], f) else Join(d, f[1..])
    else [(d[0], f[0])] + Join(d[1..], f[1..])
  }

  /** A head without a valid stamp is paired with whatever the other stream has. */
  lemma UnstampedHeadsPair(d: seq<Buffer>, f: seq<Buffer>)
    requires d != [] && f != [] && (d[0].pts.None? || f[0].pts.None?)
    ensures Join(d, f) == [(d[0], f[0])] + Join(d[1..], f[1..])
  {
  }

  // ---------------------------------------------------------------- what the join is

  /** Valid stamps, strictly increasing. */
  predicate Stamped(s: seq<Buffer>) {
    && (forall i :: 0 <= i < |s| ==> s[i].pts.Some?)
    && (forall i, j :: 0 <= i < j < |s| ==> s[i].pts.Some? && s[j].pts.Some? && s[i].pts.value < s[j].pts.value)
  }

  predicate Carries(s: seq<Buffer>, p: nat) {
    exists i :: 0 <= i < |s| && s[i].pts == Some(p)
  }

  predicate Emits(out: seq<(Buffer, Buffer)>, p: nat) {
    exists k :: 0 <= k < |out| && out[k].0.pts == Some(p)
  }

  lemma {:induction false} PairsMatch(d: seq<Buffer>, f: seq<Buffer>)
    requires Stamped(d) && Stamped(f)
    ensures forall k :: 0 <= k < |Join(d, f)| ==>
              Join(d, f)[k].0 in d && Join(d, f)[k].1 in f && Join(d, f)[k].0.pts == Join(d, f)[k].1.pts
    decreases |d| + |f|
  {
    if d == [] || f == [] {
    } else if Mismatch(d[0], f[0]) {
      if d[0].pts.value < f[0].pts.value { PairsMatch(d[1..], f); } else { PairsMatch(d, f[1..]); }
    } else {
      PairsMatch(d[1..], f[1..]);
    }
  }

  lemma CarriesTail(s: seq<Buffer>, p: nat)
    requires |s| > 0
    ensures Carries(s, p) <==> s[0].pts == Some(p) || Carries(s[1..], p)
  {
    if Carries(s, p) && s[0].pts != Some(p) {
      var i :| 0 <= i < |s| && s[i].pts == Some(p);
      assert s[1..][i - 1].pts == Some(p);
    }
    if Carries(s[1..], p) {
      var i :| 0 <= i < |s[1..]| && s[1..][i].pts == Some(p);
      assert s[i + 1].pts == Some(p);
    }
  }

  lemma EmitsCons(x: (Buffer, Buffer), out: seq<(Buffer, Buffer)>, p: nat)
    ensures Emits([x] + out, p) <==> x.0.pts == Some(p) || Emits(out, p)
  {
    if Emits(out, p) {
      var k :| 0 <= k < |out| && out[k].0.pts == Some(p);
      assert ([x] + out)[k + 1].0.pts == Some(p);
    }
    if x.0.pts == Some(p) { assert ([x] + out)[0].0.pts == Some(p); }
    if Emits([x] + out, p) && x.0.pts != Some(p) {
      var k :| 0 <= k < |[x] + out| && ([x] + out)[k].0.pts == Some(p);
      assert out[k - 1].0.pts == Some(p);
    }
  }

  lemma SmallerIsMissing(s: seq<Buffer>, p: nat)
    requires Stamped(s) && (s == [] || p < s[0].pts.value)
    ensures !Carries(s, p)
  {
  }

  /** A stamp is emitted exactly when both streams carry it. */
  lemma {:induction false} JoinIsIntersection(d: seq<Buffer>, f: seq<Buffer>, p: nat)
    requires Stamped(d) && Stamped(f)
    ensures Emits(Join(d, f), p) <==> Carries(d, p) && Carries(f, p)
    decreases |d| + |f|
  {
    if d == [] || f == [] {
    } else {
      CarriesTail(d, p);
      CarriesTail(f, p);
      var dp, fp := d[0].pts.value, f[0].pts.value;
      if dp < fp {
        JoinIsIntersection(d[1..], f, p);
        SmallerIsMissing(f, dp);
      } else if fp < dp {
        JoinIsIntersection(d, f[1..], p);
        SmallerIsMissing(d, fp);
      } else {
        JoinIsIntersection(d[1..], f[1..], p);
        EmitsCons((d[0], f[0]), Join(d[1..], f[1..]), p);
      }
    }
  }

  /** Stamps of the pairs are valid and strictly increasing: each once, in order. */
  predicate Ordered(out: seq<(Buffer, Buffer)>) {
    && (forall i :: 0 <= i < |out| ==> out[i].0.pts.Some?)
    && (forall i, j :: 0 <= i < j < |out| ==>
          out[i].0.pts.Some? && out[j].0.pts.Some? && out[i].0.pts.value < out[j].0.pts.value)
  }

  lemma NoneOrdered()
    ensures Ordered([])
  {
  }

  lemma ConsOrdered(x: (Buffer, Buffer), rest: seq<(Buffer, Buffer)>)
    requires Ordered(rest) && x.0.pts.Some?
    requires forall k :: 0 <= k < |rest| ==> rest[k].0.pts.Some? && rest[k].0.pts.value > x.0.pts.value
    ensures Ordered([x] + rest)
  {
  }

  lemma {:induction false} JoinIsOrdered(d: seq<Buffer>, f: seq<Buffer>)
    requires Stamped(d) && Stamped(f)
    ensures Ordered(Join(d, f))
    decreases |d| + |f|
  {
    hide Ordered;
    if d == [] || f == [] {
      NoneOrdered();
      assert Join(d, f) == [];
    } else if Mismatch(d[0], f[0]) {
      if d[0].pts.value < f[0].pts.value { JoinIsOrdered(d[1..], f); } else { JoinIsOrdered(d, f[1..]); }
    } else {
      var rest := Join(d[1..], f[1..]);
      JoinIsOrdered(d[1..], f[1..]);
      PairsMatch(d[1..], f[1..]);
      forall k | 0 <= k < |rest|
        ensures rest[k].0.pts.Some? && rest[k].0.pts.value > d[0].pts.value
      {
        var i :| 0 <= i < |d[1..]| && d[1..][i] == rest[k].0;
        assert d[i + 1] == rest[k].0;
      }
      ConsOrdered((d[0], f[0]), rest);
    }
  }

  // ---------------------------------------------------------------- the element

  /** A sink pad: queued buffers, and whether an end-of-stream waits behind them. */
  /** However the streams continue, what is out plus the join of what is queued and still to
      come is the join of the whole streams. */
  ghost predicate JoinKept(out: seq<(Buffer, Buffer)>, det: seq<Buffer>, flow: seq<Buffer>,
                           allDet: seq<Buffer>, allFlow: seq<Buffer>) {
    forall x, y {:trigger Join(det + x, flow + y)} {:trigger Join(allDet + x, allFlow + y)} ::
      out + Join(det + x, flow + y) == Join(allDet + x, allFlow + y)
  }

  lemma DropKeepsJoin(out: seq<(Buffer, Buffer)>, det: seq<Buffer>, flow: seq<Buffer>,
                      allDet: seq<Buffer>, allFlow: seq<Buffer>)
    requires JoinKept(out, det, flow, allDet, allFlow) && det != [] && flow != [] && Mismatch(det[0], flow[0])
    ensures if det[0].pts.value < flow[0].pts.value then JoinKept(out, det[1..], flow, allDet, allFlow)
            else JoinKept(out, det, flow[1..], allDet, allFlow)
  {
    hide Join;
    forall x: seq<Buffer>, y: seq<Buffer>
      ensures out + (if det[0].pts.value < flow[0].pts.value then Join(det[1..] + x, flow + y)
                     else Join(det + x, flow[1..] + y)) == Join(allDet + x, allFlow + y)
    {
      DropStep(det, flow, x, y);
      assert out + Join(det + x, flow + y) == Join(allDet + x, allFlow + y);
    }
  }

  lemma PairKeepsJoin(out: seq<(Buffer, Buffer)>, det: seq<Buffer>, flow: seq<Buffer>,
                      allDet: seq<Buffer>, allFlow: seq<Buffer>)
    requires JoinKept(out, det, flow, allDet, allFlow) && det != [] && flow != [] && !Mismatch(det[0], flow[0])
    ensures JoinKept(out + [(det[0], flow[0])], det[1..], flow[1..], allDet, allFlow)
  {
    hide Join;
    forall x: seq<Buffer>, y: seq<Buffer>
      ensures out + [(det[0], flow[0])] + Join(det[1..] + x, flow[1..] + y) == Join(allDet + x, allFlow + y)
    {
      PairStep(det, flow, x, y);
      assert out + Join(det + x, flow + y) == Join(allDet + x, allFlow + y);
      var rest := Join(det[1..] + x, flow[1..] + y);
      assert out + [(det[0], flow[0])] + rest == out + ([(det[0], flow[0])] + rest);
    }
  }

  class Aggregator {
    var det: seq<Buffer>
    var flow: seq<Buffer>
    var detEnded: bool
    var flowEnded: bool
    var srcCapsSet: bool
    /** Pairs pushed downstream. */
    var out: seq<(Buffer, Buffer)>
    /** Everything that ever arrived on the two pads. */
    ghost var allDet: seq<Buffer>
    ghost var allFlow: seq<Buffer>

    ghost predicate Valid()
      reads this
    {
      JoinKept(out, det, flow, allDet, allFlow)
    }

    constructor ()
      ensures Valid() && det == [] && flow == [] && out == [] && !srcCapsSet && !detEnded && !flowEnded
      ensures allDet == [] && allFlow == []
    {
      det, flow, out, detEnded, flowEnded, srcCapsSet := [], [], [], false, false, false;
      allDet, allFlow := [], [];
      new;
      forall x: seq<Buffer>, y: seq<Buffer>
        ensures out + Join(det + x, flow + y) == Join(allDet + x, allFlow + y)
      {
        assert det + x == allDet + x && flow + y == allFlow + y;
      }
    }

    method ArriveDet(b: Buffer)
      requires Valid() && !detEnded
      modifies this`det, this`allDet
      ensures Valid() && det == old(det) + [b] && allDet == old(allDet) + [b]
    {
      ghost var d, a := det, allDet;
      det := det + [b];
      allDet := allDet + [b];
      forall x: seq<Buffer>, y: seq<Buffer>
        ensures out + Join(det + x, flow + y) == Join(allDet + x, allFlow + y)
      {
        assert det + x == d + ([b] + x) && allDet + x == a + ([b] + x);
        assert out + Join(d + ([b] + x), flow + y) == Join(a + ([b] + x), allFlow + y);
      }
    }

    method ArriveFlow(b: Buffer)
      requires Valid() && !flowEnded
      modifies this`flow, this`allFlow
      ensures Valid() && flow == old(flow) + [b] && allFlow == old(allFlow) + [b]
    {
      ghost var f, a := flow, allFlow;
      flow := flow + [b];
      allFlow := allFlow + [b];
      forall x: seq<Buffer>, y: seq<Buffer>
        ensures out + Join(det + x, flow + y) == Join(allDet + x, allFlow + y)
      {
        assert flow + y == f + ([b] + y) && allFlow + y == a + ([b] + y);
        assert out + Join(det + x, f + ([b] + y)) == Join(allDet + x, a + ([b] + y));
      }
    }

    method EndDet()
      requires Valid()
      modifies this`detEnded
      ensures Valid() && detEnded
    {
      detEnded := true;
    }

    method EndFlow()
      requires Valid()
      modifies this`flowEnded
      ensures Valid() && flowEnded
    {
      flowEnded := true;
    }

    /** One aggregate call. With both heads present and the caps known it consumes at least
        one buffer; it emits at most one pair; and it keeps the join of the streams. */
    method Aggregate(capsKnown: bool) returns (ret: Flow)
      requires Valid()
      modifies this`det, this`flow, this`srcCapsSet, this`out
      ensures Valid()
      ensures ret == EOS <==> (old(det) == [] && detEnded) || (old(flow) == [] && flowEnded)
      ensures old(det) == [] || old(flow) == [] ==> det == old(det) && flow == old(flow) && out == old(out)
      ensures old(det) != [] && old(flow) != [] && Mismatch(old(det)[0], old(flow)[0]) ==>
                && ret == NEED_DATA && out == old(out)
                && (if old(det)[0].pts.value < old(flow)[0].pts.value
                    then det == old(det)[1..] && flow == old(flow) else det == old(det) && flow == old(flow)[1..])
      ensures old(det) != [] && old(flow) != [] && !Mismatch(old(det)[0], old(flow)[0]) ==>
                if old(srcCapsSet) || capsKnown
                then ret == OK && srcCapsSet && out == old(out) + [(old(det)[0], old(flow)[0])]
                     && det == old(det)[1..] && flow == old(flow)[1..]
                else ret == NEED_DATA && out == old(out) && det == old(det) && flow == old(flow)
      ensures old(det) != [] && old(flow) != [] && (old(srcCapsSet) || capsKnown) ==>
                |det| + |flow| < |old(det)| + |old(flow)|
    {
      hide JoinKept, Join;
      if (detEnded && det == []) || (flowEnded && flow == []) { return EOS; }
      if det == [] || flow == [] { return NEED_DATA; }
      var d, f := det[0], flow[0];
      if Mismatch(d, f) {
        DropKeepsJoin(out, det, flow, allDet, allFlow);
        if d.pts.value < f.pts.value { det := det[1..]; } else { flow := flow[1..]; }
        return NEED_DATA;
      }
      if !srcCapsSet {
        if !capsKnown { return NEED_DATA; }
        srcCapsSet := true;
      }
      PairKeepsJoin(out, det, flow, allDet, allFlow);
      det, flow := det[1..], flow[1..];
      out := out + [(d, f)];
      return OK;
    }

    /** Whenever a queue has run empty, what went out is the join of everything that arrived. */
    lemma Drained()
      requires Valid() && (det == [] || flow == [])
      ensures out == Join(allDet, allFlow)
    {
      assert det + [] == det && flow + [] == flow && allDet + [] == allDet && allFlow + [] == allFlow;
      assert out + Join(det + [], flow + []) == Join(allDet + [], allFlow + []);
    }

    /** For streams with strictly increasing valid stamps, in any arrival order: what went out
        is exactly the stamps common to both, once each and in order, equal stamps paired. */
    lemma DrainedIsIntersection(p: nat)
      requires Valid() && (det == [] || flow == []) && Stamped(allDet) && Stamped(allFlow)
      ensures Emits(out, p) <==> Carries(allDet, p) && Carries(allFlow, p)
      ensures Ordered(out)
      ensures forall k :: 0 <= k < |out| ==> out[k].0 in allDet && out[k].1 in allFlow && out[k].0.pts == out[k].1.pts
    {
      Drained();
      JoinIsIntersection(allDet, allFlow, p);
      JoinIsOrdered(allDet, allFlow);
      PairsMatch(allDet, allFlow);
    }
  }

  lemma DropStep(d: seq<Buffer>, f: seq<Buffer>, x: seq<Buffer>, y: seq<Buffer>)
    requires d != [] && f != [] && Mismatch(d[0], f[0])
    ensures Join(d + x, f + y)
         == if d[0].pts.value < f[0].pts.value then Join(d[1..] + x, f + y) else Join(d + x, f[1..] + y)
  {
    assert (d + x)[1..] == d[1..] + x && (f + y)[1..] == f[1..] + y;
  }

  lemma PairStep(d: seq<Buffer>, f: seq<Buffer>, x: seq<Buffer>, y: seq<Buffer>)
    requires d != [] && f != [] && !Mismatch(d[0], f[0])
    ensures Join(d + x, f + y) == [(d[0], f[0])] + Join(d[1..] + x, f[1..] + y)
  {
    assert (d + x)[1..] == d[1..] + x && (f + y)[1..] == f[1..] + y;
  }
}
