/** Whole runs of the slot protocol: mutual exclusion on pixels, how long a delivered
    slot stays pinned, frame numbering, and when the producer's scan must succeed. */
module SlotRuns {
  import opened Options
  import opened Sequences
  import opened SlotProtocol

  /** Some enabled step leads from s to s'. The guard Inv(s) excludes nothing that can
      happen: RunInv shows it in every state a run reaches. */
  ghost predicate Next(s: State, s': State) {
    Inv(s) && exists e :: Enabled(s, e) && s' == Do(s, e)
  }

  ghost predicate Run(ss: seq<State>) {
    |ss| > 0 && forall i :: 0 <= i < |ss| - 1 ==> Next(ss[i], ss[i + 1])
  }

  lemma {:induction false} RunInv(ss: seq<State>, k: nat)
    requires Run(ss) && Inv(ss[0]) && k < |ss|
    ensures Inv(ss[k])
  {
    if k > 0 {
      assert Next(ss[k - 1], ss[k]);
      var e :| Enabled(ss[k - 1], e) && ss[k] == Do(ss[k - 1], e);
      StepInv(ss[k - 1], e);
    }
  }

  lemma {:induction false} SameReaders(ss: seq<State>, k: nat)
    requires Run(ss) && k < |ss|
    ensures |ss[k].readers| == |ss[0].readers| && |ss[k].sh.counts| == |ss[0].sh.counts|
  {
    if k == 0 {
    } else {
      SameReaders(ss, k - 1);
      assert Next(ss[k - 1], ss[k]);
      var e :| Enabled(ss[k - 1], e) && ss[k] == Do(ss[k - 1], e);
      StepKeepsSizes(ss[k - 1], e);
    }
  }

  lemma StepKeepsSizes(s: State, e: Step)
    requires Inv(s) && Enabled(s, e)
    ensures |Do(s, e).readers| == |s.readers|
    ensures |Do(s, e).sh.counts| == |s.sh.counts|
  {
    if e.ReaderNext? { ReaderAfterOk(s.sh, s.readers[e.r]); }
  }

  // ---------------------------------------------------------------- counts

  /** In every state of every run a slot is either locked by the writer alone, or its
      count is the number of references the consumers hold on it. */
  lemma CountsAreExactInEveryRun(ss: seq<State>, k: nat, x: nat)
    requires Run(ss) && Init(ss[0]) && k < |ss| && x < |ss[k].sh.counts|
    ensures ss[k].sh.counts[x] == -1 <==> Locks(ss[k].wpc, x)
    ensures Locks(ss[k].wpc, x) ==> forall r :: 0 <= r < |ss[k].readers| ==> Held(ss[k].readers[r], x) == 0
    ensures !Locks(ss[k].wpc, x) ==> ss[k].sh.counts[x] == AllHeld(ss[k].readers, x)
  {
    InitInv(ss[0]);
    RunInv(ss, k);
    AllHeldNonNegative(ss[k].readers, x);
    forall r | 0 <= r < |ss[k].readers| ensures 0 <= Held(ss[k].readers[r], x) <= AllHeld(ss[k].readers, x) {
      HeldNonNegative(ss[k].readers[r], x);
      AllHeldUpdate(ss[k].readers, r, ss[k].readers[r], x);
    }
  }

  /** A consumer that has stopped contributes to no count. */
  lemma StoppedHoldsNothing(ss: seq<State>, k: nat, r: nat, x: nat)
    requires Run(ss) && Init(ss[0]) && k < |ss| && r < |ss[k].readers|
    requires ss[k].readers[r].pc.RStopped?
    ensures Held(ss[k].readers[r], x) == 0
  {
    InitInv(ss[0]);
    RunInv(ss, k);
    RingCountPositive(ss[k].readers[r].ring, x);
  }

  // ---------------------------------------------------------------- exclusion on pixels

  lemma StepKeepsHeldPixels(s: State, e: Step, r: nat, x: nat)
    requires Inv(s) && Enabled(s, e) && r < |s.readers| && x < |s.sh.counts|
    requires Held(s.readers[r], x) > 0
    ensures |Do(s, e).sh.pixels| == |s.sh.pixels| && Do(s, e).sh.pixels[x] == s.sh.pixels[x]
  {
    AllHeldUpdate(s.readers, r, s.readers[r], x);
    if e.ReaderNext? { ReaderAfterOk(s.sh, s.readers[e.r]); }
  }

  lemma NextKeepsHeldPixels(s: State, s': State, r: nat, x: nat)
    requires Next(s, s') && r < |s.readers| && x < |s.sh.counts|
    requires Held(s.readers[r], x) > 0
    ensures |s'.sh.pixels| == |s.sh.pixels| && s'.sh.pixels[x] == s.sh.pixels[x]
  {
    var e :| Enabled(s, e) && s' == Do(s, e);
    StepKeepsHeldPixels(s, e, r, x);
  }

  predicate HoldsIn(s: State, r: nat, x: nat) {
    r < |s.readers| && Held(s.readers[r], x) > 0
  }

  /** While one consumer holds a slot without interruption, its pixels do not change,
      whatever the producer and the other consumers do. */
  lemma {:induction false} HeldPixelsAreStable(ss: seq<State>, r: nat, x: nat, k: nat)
    requires Run(ss) && Inv(ss[0]) && x < |ss[0].sh.counts| && k < |ss|
    requires forall j :: 0 <= j <= k ==> HoldsIn(ss[j], r, x)
    ensures |ss[k].sh.pixels| == |ss[0].sh.pixels| && ss[k].sh.pixels[x] == ss[0].sh.pixels[x]
  {
    if k == 0 {
    } else {
      HeldPixelsAreStable(ss, r, x, k - 1);
      assert HoldsIn(ss[k - 1], r, x);
      assert Next(ss[k - 1], ss[k]);
      NextKeepsHeldPixels(ss[k - 1], ss[k], r, x);
    }
  }

  /** Delivery p is still pinned: at most RELEASE_DELAY later slots have been taken, or the
      next one was just taken and the oldest reference has not been given back yet. */
  predicate Pinned(r: Reader, p: nat) {
    && !r.pc.RStopping?
    && p < |r.taken| <= p + RELEASE_DELAY + (if r.pc.RReturnOldest? then 1 else 0)
  }

  lemma PinnedIsHeld(r: Reader, n: nat, f: nat, p: nat)
    requires ReaderOk(r, n, f) && Pinned(r, p)
    ensures r.taken[p] < n && Held(r, r.taken[p]) > 0
  {
    var x := r.taken[p];
    var i := p + RELEASE_DELAY - Stored(r);
    if i < RELEASE_DELAY {
      assert RingAt(r, i) == Some(x);
      RingCountPositive(r.ring, x);
      if r.pc.RRingStore? {
        assert (r.head + i) % RELEASE_DELAY != r.head;
        RingCountUpdate(r.ring, r.head, None, x);
        RingCountPositive(r.ring[r.head := None], x);
        assert r.ring[r.head := None][(r.head + i) % RELEASE_DELAY] == Some(x);
      }
    } else {
      HeldNonNegative(r.(pc := RIdle), x);
      if r.pc.RRingStore? { RingCountUpdate(r.ring, r.head, None, x); }
    }
  }

  /** The reference given back when a slot is taken is the one taken RELEASE_DELAY slots
      earlier, and none is given back before that. */
  lemma ReturnedIsTwelfthBefore(r: Reader, n: nat, f: nat)
    requires ReaderOk(r, n, f) && r.pc.RReturnOldest?
    ensures r.ring[r.head] == if |r.taken| <= RELEASE_DELAY then None else Some(r.taken[|r.taken| - 1 - RELEASE_DELAY])
  {
    assert RingAt(r, 0) == r.ring[r.head];
  }

  predicate PinnedIn(s: State, r: nat, p: nat) {
    r < |s.readers| && Pinned(s.readers[r], p)
  }

  lemma PinnedNext(s: State, s': State, r: nat, p: nat)
    requires Next(s, s') && PinnedIn(s, r, p) && PinnedIn(s', r, p)
    ensures s'.readers[r].taken[p] == s.readers[r].taken[p] < |s.sh.pixels| == |s'.sh.pixels|
    ensures var x := s.readers[r].taken[p]; s'.sh.pixels[x] == s.sh.pixels[x]
  {
    PinnedIsHeld(s.readers[r], |s.sh.counts|, s.sh.frameNumber, p);
    var e :| Enabled(s, e) && s' == Do(s, e);
    StepKeepsHeldPixels(s, e, r, s.readers[r].taken[p]);
  }

  /** A pin ends only when stop begins or when the reference taken RELEASE_DELAY slots
      later gives this one back. */
  lemma PinEndsOnlyByReturnOrStop(s: State, e: Step, r: nat, p: nat)
    requires Inv(s) && Enabled(s, e) && PinnedIn(s, r, p)
    ensures PinnedIn(Do(s, e), r, p)
         || e == Stop(r)
         || (e == ReaderNext(r) && s.readers[r].pc.RReturnOldest?
             && |s.readers[r].taken| == p + RELEASE_DELAY + 1
             && s.readers[r].ring[s.readers[r].head] == Some(s.readers[r].taken[p]))
  {
    StepKeepsSizes(s, e);
    if s.readers[r].pc.RReturnOldest? {
      ReturnedIsTwelfthBefore(s.readers[r], |s.sh.counts|, s.sh.frameNumber);
    }
  }

  /** From the moment delivery p is taken until its reference is given back, RELEASE_DELAY
      deliveries later or at stop, its pixels are those of the first moment. */
  lemma {:induction false} DeliveryKeepsItsPixels(ss: seq<State>, r: nat, p: nat, k: nat)
    requires Run(ss) && Inv(ss[0]) && k < |ss|
    requires forall j :: 0 <= j <= k ==> PinnedIn(ss[j], r, p)
    ensures PinnedIn(ss[0], r, p) && PinnedIn(ss[k], r, p)
    ensures var x := ss[0].readers[r].taken[p];
            && ss[k].readers[r].taken[p] == x < |ss[0].sh.pixels| == |ss[k].sh.pixels|
            && ss[k].sh.pixels[x] == ss[0].sh.pixels[x]
  {
    assert PinnedIn(ss[0], r, p);
    PinnedIsHeld(ss[0].readers[r], |ss[0].sh.counts|, ss[0].sh.frameNumber, p);
    if k == 0 {
    } else {
      DeliveryKeepsItsPixels(ss, r, p, k - 1);
      assert Next(ss[k - 1], ss[k]);
      PinnedNext(ss[k - 1], ss[k], r, p);
    }
  }

  // ---------------------------------------------------------------- numbering

  /** In every run the frames published so far are numbered 0, 1, 2, ... whatever was
      dropped or failed in between, the published index names a pool slot, and the frame
      numbers a consumer records since it started are positive and strictly increasing. */
  lemma NumbersInEveryRun(ss: seq<State>, k: nat)
    requires Run(ss) && Init(ss[0]) && k < |ss|
    ensures var p := PublishedFrames(ss[k].outcomes);
            |p| == ss[k].nextFrame && forall i :: 0 <= i < |p| ==> p[i] == i
    ensures ss[k].sh.writeIdx < |ss[k].sh.counts|
    ensures forall r :: 0 <= r < |ss[k].readers| ==>
              && Increasing(ss[k].readers[r].delivered)
              && forall i :: 0 <= i < |ss[k].readers[r].delivered| ==>
                   0 < ss[k].readers[r].delivered[i] < ss[k].nextFrame
  {
    InitInv(ss[0]);
    RunInv(ss, k);
  }

  // ---------------------------------------------------------------- the scan

  lemma ScanVisits(n: nat, x: nat) returns (i: nat)
    requires x < n
    ensures i < n && SlotAt(n, i) == x
  {
    i := if x == 0 then n - 1 else x - 1;
    if x == 0 { assert (0 + 1 + i) % n == 0; }
  }

  lemma ScanVisitsOnce(n: nat, i: nat, j: nat)
    requires i < j < n
    ensures SlotAt(n, i) != SlotAt(n, j)
  {
    assert SlotAt(n, i) == i + 1;
    if j + 1 < n { assert SlotAt(n, j) == j + 1; } else { assert SlotAt(n, j) == 0; }
  }

  /** A run during which the producer is inside one scan, up to its last state. */
  ghost predicate ScanRun(ss: seq<State>) {
    && Run(ss) && Inv(ss[0]) && ss[0].wpc == WScan(0)
    && forall k :: 0 <= k < |ss| - 1 ==> ss[k].wpc.WScan?
  }

  lemma ScanStep(s: State, e: Step)
    requires Inv(s) && Enabled(s, e) && s.wpc.WScan?
    ensures e.TryLock? ==> Do(s, e) == AfterTryLock(s)
    ensures !e.TryLock? ==> Do(s, e).wpc == s.wpc && Do(s, e).outcomes == s.outcomes
    ensures Do(s, e).sh.frameNumber == s.sh.frameNumber
  {
    if e.ReaderNext? { ReaderAfterOk(s.sh, s.readers[e.r]); }
  }

  /** A slot that stays free for as long as the scan lasts is found: the frame is not dropped. */
  lemma {:induction false} ScanFindsFreeSlot(ss: seq<State>, x: nat)
    requires ScanRun(ss) && x < |ss[0].sh.counts|
    requires forall k :: 0 <= k < |ss| - 1 ==> |ss[k].sh.counts| == |ss[0].sh.counts| && ss[k].sh.counts[x] == 0
    ensures var l := ss[|ss| - 1];
            && l.outcomes == ss[0].outcomes
            && (l.wpc.WCopy? || (l.wpc.WScan? && l.wpc.i < |ss[0].sh.counts|
                                && forall i :: 0 <= i < l.wpc.i ==> SlotAt(|ss[0].sh.counts|, i) != x))
  {
    hide Inv;
    if |ss| == 1 {
    } else {
      var n, m := |ss[0].sh.counts|, |ss| - 2;
      ScanFindsFreeSlot(ss[..m + 1], x);
      assert Next(ss[m], ss[m + 1]);
      var e :| Enabled(ss[m], e) && ss[m + 1] == Do(ss[m], e);
      ScanStep(ss[m], e);
      if e.TryLock? {
        var i := ScanVisits(n, x);
        if ss[m].wpc.i == n - 1 { assert i == n - 1; }
      }
    }
  }

  /** The pool slots among the entries of a ring. */
  function RingSlots(ring: seq<Option<nat>>): set<nat> {
    set j | 0 <= j < |ring| && ring[j].Some? :: ring[j].value
  }

  lemma {:induction false} RingSlotsBound(ring: seq<Option<nat>>)
    ensures |RingSlots(ring)| <= |ring|
  {
    if ring == [] {
    } else {
      var m := |ring| - 1;
      RingSlotsBound(ring[..m]);
      var rest := RingSlots(ring[..m]);
      assert RingSlots(ring) <= if ring[m].Some? then rest + {ring[m].value} else rest;
      SubsetCardinality(RingSlots(ring), if ring[m].Some? then rest + {ring[m].value} else rest);
    }
  }

  lemma {:induction false} SubsetCardinality<T>(a: set<T>, b: set<T>)
    requires a <= b
    ensures |a| <= |b|
  {
    if a != {} {
      var x :| x in a;
      SubsetCardinality(a - {x}, b - {x});
    }
  }

  /** Pigeonhole: fewer than n values leave some number below n out. */
  lemma {:induction false} OneLeftOut(u: set<nat>, n: nat) returns (x: nat)
    requires |u| < n
    ensures x < n && x !in u
  {
    if n - 1 in u {
      x := OneLeftOut(u - {n - 1}, n - 1);
    } else {
      x := n - 1;
    }
  }

  /** Every slot a consumer may hold. */
  function Slots(r: Reader): set<nat> {
    RingSlots(r.ring)
    + (match r.pc
       case RReturnOldest(idx) => {idx}
       case RRingStore(idx) => {idx}
       case _ => {})
  }

  lemma OutsideSlots(r: Reader, x: nat)
    requires x !in Slots(r)
    ensures Held(r, x) == 0
  {
    RingCountPositive(r.ring, x);
    HeldNonNegative(r, x);
    assert forall j :: 0 <= j < |r.ring| && r.ring[j].Some? ==> r.ring[j].value in RingSlots(r.ring);
  }

  predicate WriterOnly(ss: seq<State>) {
    forall k :: 0 <= k < |ss| - 1 ==> ss[k].readers == ss[k + 1].readers
  }

  lemma {:induction false} ReadersUnchanged(ss: seq<State>, k: nat)
    requires k < |ss| && WriterOnly(ss)
    ensures ss[k].readers == ss[0].readers
  {
    if k == 0 {
    } else {
      ReadersUnchanged(ss, k - 1);
    }
  }

  /** Every consumer but r has stopped. */
  predicate OthersStopped(s: State, r: nat) {
    r < |s.readers| && forall k :: 0 <= k < |s.readers| && k != r ==> s.readers[k].pc.RStopped?
  }

  lemma {:induction false} OnlyOneHolds(readers: seq<Reader>, r: nat, x: nat)
    requires r < |readers| && forall k :: 0 <= k < |readers| && k != r ==> Held(readers[k], x) == 0
    ensures AllHeld(readers, x) == Held(readers[r], x)
  {
    hide Held;
    if r == 0 {
      NothingHeld(readers[1..], x);
    } else {
      OnlyOneHolds(readers[1..], r - 1, x);
    }
  }

  /** A slot that the one active consumer does not hold is free, unless the producer has it. */
  lemma FreeForOthers(s: State, r: nat, x: nat)
    requires Inv(s) && OthersStopped(s, r) && x < |s.sh.counts| && s.wpc.WScan? && x !in Slots(s.readers[r])
    ensures s.sh.counts[x] == 0
  {
    forall k | 0 <= k < |s.readers| && k != r ensures Held(s.readers[k], x) == 0 {
      assert ReaderOk(s.readers[k], |s.sh.counts|, s.sh.frameNumber);
      RingCountPositive(s.readers[k].ring, x);
    }
    OutsideSlots(s.readers[r], x);
    hide Held, Slots, ReaderOk;
    OnlyOneHolds(s.readers, r, x);
  }

  /** With one consumer between calls of create and every other one stopped, any pool of the allowed
      size has a free slot, so an undisturbed scan locks one: the frame is not dropped. */
  lemma IdleConsumerNeverStarvesProducer(ss: seq<State>, r: nat)
    requires ScanRun(ss) && WriterOnly(ss)
    requires OthersStopped(ss[0], r) && ss[0].readers[r].pc.RIdle?
    ensures var l := ss[|ss| - 1];
            && l.outcomes == ss[0].outcomes && (l.wpc.WCopy? || l.wpc.WScan?)
  {
    var rd := ss[0].readers[r];
    RingSlotsBound(rd.ring);
    assert |rd.ring| == RELEASE_DELAY && |ss[0].sh.counts| >= MIN_POOL_SIZE by {
      assert ReaderOk(rd, |ss[0].sh.counts|, ss[0].sh.frameNumber);
    }
    assert Slots(rd) == RingSlots(rd.ring);
    var x := OneLeftOut(Slots(rd), |ss[0].sh.counts|);
    hide Inv, Slots, Held, Next;
    forall k | 0 <= k < |ss| - 1
      ensures |ss[k].sh.counts| == |ss[0].sh.counts| && ss[k].sh.counts[x] == 0
    {
      RunInv(ss, k);
      SameReaders(ss, k);
      ReadersUnchanged(ss, k);
      FreeForOthers(ss[k], r, x);
    }
    ScanFindsFreeSlot(ss, x);
  }

  // ---------------------------------------------------------------- one active consumer, any interleaving

  /** During a scan no frame is published, so a consumer can still take a slot only if it
      has not yet recorded the current frame number. */
  predicate MayTake(s: State, r: nat)
    requires r < |s.readers|
  {
    var rd := s.readers[r];
    match rd.pc
    case RLoadIdx => true
    case RLoadCount(_) => true
    case RReloadIdx => true
    case RCas(_, _) => true
    case RIdle => rd.last != s.sh.frameNumber
    case RPollReady => rd.last != s.sh.frameNumber
    case RPollFrame => rd.last != s.sh.frameNumber
    case _ => false
  }

  /** Consumer r is running, neither stopped nor stopping, and it is the only one. */
  predicate Running(s: State, r: nat) {
    OthersStopped(s, r) && !s.readers[r].pc.RStopped? && !s.readers[r].pc.RStopping?
  }

  predicate AllRunning(ss: seq<State>, r: nat) {
    forall j {:trigger ss[j]} :: 0 <= j < |ss| ==> Running(ss[j], r)
  }

  /** Only the running consumer's own steps change what it holds. */
  lemma StepOfOthers(s: State, e: Step, r: nat)
    requires Inv(s) && Enabled(s, e) && s.wpc.WScan? && Running(s, r) && Running(Do(s, e), r) && e != ReaderNext(r)
    ensures Slots(Do(s, e).readers[r]) == Slots(s.readers[r]) && Do(s, e).sh.frameNumber == s.sh.frameNumber
    ensures MayTake(Do(s, e), r) ==> MayTake(s, r)
  {
  }

  lemma StepOfRunning(s: State, r: nat)
    requires Inv(s) && Enabled(s, ReaderNext(r)) && s.wpc.WScan? && Running(s, r) && Running(Do(s, ReaderNext(r)), r)
    ensures var s' := Do(s, ReaderNext(r));
            && (MayTake(s', r) ==> MayTake(s, r))
            && (Slots(s'.readers[r]) <= Slots(s.readers[r])
                || (MayTake(s, r) && !MayTake(s', r)
                    && exists x :: Slots(s'.readers[r]) <= Slots(s.readers[r]) + {x}))
  {
    var s' := Do(s, ReaderNext(r));
    var rd, rd' := s.readers[r], s'.readers[r];
    if rd.pc.RCas? && rd'.pc.RReturnOldest? {
      assert Slots(rd') <= Slots(rd) + {rd.pc.idx};
    } else if rd.pc.RRingStore? {
      forall x | x in RingSlots(rd'.ring) ensures x in Slots(rd) {
        var j :| 0 <= j < |rd'.ring| && rd'.ring[j].Some? && rd'.ring[j].value == x;
        if j != rd.head { assert rd.ring[j] == rd'.ring[j]; }
      }
    }
  }

  lemma SlotsStep(s: State, s': State, r: nat)
    requires Next(s, s') && s.wpc.WScan? && Running(s, r) && Running(s', r)
    ensures MayTake(s', r) ==> MayTake(s, r)
    ensures Slots(s'.readers[r]) <= Slots(s.readers[r])
         || (MayTake(s, r) && !MayTake(s', r) && exists x :: Slots(s'.readers[r]) <= Slots(s.readers[r]) + {x})
  {
    var e :| Enabled(s, e) && s' == Do(s, e);
    hide Inv, Do, Enabled, Running, Slots, MayTake;
    if e == ReaderNext(r) { StepOfRunning(s, r); } else { StepOfOthers(s, e, r); }
  }

  /** All slots the consumer may have held in the first k + 1 states. */
  function SlotsUpTo(ss: seq<State>, r: nat, k: nat): set<nat>
    requires k < |ss| && AllRunning(ss, r)
  {
    if k == 0 then Slots(ss[0].readers[r]) else SlotsUpTo(ss, r, k - 1) + Slots(ss[k].readers[r])
  }

  lemma {:induction false} AtMostThirteenSlots(ss: seq<State>, r: nat, k: nat)
    requires ScanRun(ss) && k < |ss| && AllRunning(ss, r)
    ensures |SlotsUpTo(ss, r, k)| <= RELEASE_DELAY + 1
    ensures MayTake(ss[k], r) ==> |SlotsUpTo(ss, r, k)| <= RELEASE_DELAY
    ensures Slots(ss[k].readers[r]) <= SlotsUpTo(ss, r, k)
  {
    if k == 0 {
      SlotsBound(ss[0], r);
    } else {
      hide Inv, Slots, MayTake;
      AtMostThirteenSlots(ss, r, k - 1);
      var before, now := SlotsUpTo(ss, r, k - 1), Slots(ss[k].readers[r]);
      assert Next(ss[k - 1], ss[k]);
      assert Running(ss[k - 1], r) && Running(ss[k], r);
      hide Next, Running;
      SlotsStep(ss[k - 1], ss[k], r);
      if now <= Slots(ss[k - 1].readers[r]) {
        assert before + now == before;
      } else {
        var x :| now <= Slots(ss[k - 1].readers[r]) + {x};
        SubsetCardinality(before + now, before + {x});
      }
    }
  }

  lemma SlotsBound(s: State, r: nat)
    requires Inv(s) && Running(s, r)
    ensures |Slots(s.readers[r])| <= RELEASE_DELAY + 1
    ensures MayTake(s, r) ==> |Slots(s.readers[r])| <= RELEASE_DELAY
  {
    assert ReaderOk(s.readers[r], |s.sh.counts|, s.sh.frameNumber);
    RingSlotsBound(s.readers[r].ring);
    assert MayTake(s, r) ==> Slots(s.readers[r]) == RingSlots(s.readers[r].ring);
  }

  lemma {:induction false} SlotsUpToMono(ss: seq<State>, r: nat, j: nat, k: nat)
    requires j <= k < |ss| && AllRunning(ss, r)
    ensures Slots(ss[j].readers[r]) <= SlotsUpTo(ss, r, k)
  {
    hide Slots;
    if j == k {
    } else {
      SlotsUpToMono(ss, r, j, k - 1);
    }
  }

  /** With one running consumer and every other one stopped, a pool of at least RELEASE_DELAY + 2 slots
      never drops a frame, however create and render interleave. */
  lemma OneConsumerNeverStarvesLargerPool(ss: seq<State>, r: nat)
    requires ScanRun(ss) && AllRunning(ss, r)
    requires |ss[0].sh.counts| >= RELEASE_DELAY + 2
    ensures var l := ss[|ss| - 1];
            && l.outcomes == ss[0].outcomes && (l.wpc.WCopy? || l.wpc.WScan?)
  {
    var last := |ss| - 1;
    AtMostThirteenSlots(ss, r, last);
    var x := OneLeftOut(SlotsUpTo(ss, r, last), |ss[0].sh.counts|);
    hide Inv, Slots, Held, SlotsUpTo, Next;
    forall k | 0 <= k < |ss| - 1
      ensures |ss[k].sh.counts| == |ss[0].sh.counts| && ss[k].sh.counts[x] == 0
    {
      RunInv(ss, k);
      SameReaders(ss, k);
      SlotsUpToMono(ss, r, k, last);
      assert Running(ss[k], r);
      FreeForOthers(ss[k], r, x);
    }
    ScanFindsFreeSlot(ss, x);
  }
}
