/** render, create and stop as the code runs them: loops over single header accesses with the other
    threads free to act before every one of them. Each call is shown to walk the state machine of
    SlotProtocol, so everything proved of its runs holds of the code. */
module SlotThreads {
  import opened Options
  import opened SlotProtocol
  import opened SlotOrigins
  import opened SlotRuns

  /** Who runs: the producer, or consumer r. */
  datatype Thread = Producer | Consumer(r: nat)

  predicate Runs(t: Thread, e: Step) {
    match e
    case Create(r) => t == Consumer(r)
    case GiveUp(r) => t == Consumer(r)
    case ReaderNext(r) => t == Consumer(r)
    case Start(r) => t == Consumer(r)
    case Stop(r) => t == Consumer(r)
    case _ => t == Producer
  }

  /** What another thread's step never touches. */
  predicate Undisturbed(t: Thread, s: State, s': State) {
    && |s'.sh.counts| == |s.sh.counts| && |s'.readers| == |s.readers|
    && match t
       case Producer => s'.wpc == s.wpc && s'.nextFrame == s.nextFrame && s'.outcomes == s.outcomes
       case Consumer(r) => r < |s.readers| ==> s'.readers[r] == s.readers[r]
  }

  lemma OthersDoNotDisturb(t: Thread, s: State, e: Step)
    requires Inv(s) && Enabled(s, e) && !Runs(t, e)
    ensures Undisturbed(t, s, Do(s, e))
  {
    StepKeepsSizes(s, e);
    hide Inv;
  }

  lemma UndisturbedTwice(t: Thread, s: State, s': State, s'': State)
    requires Undisturbed(t, s, s') && Undisturbed(t, s', s'')
    ensures Undisturbed(t, s, s'')
  {
  }

  /** The shared header, with the run so far as history. */
  class Header {
    var sh: Shared
    var trace: seq<State>

    ghost predicate TraceOk()
      reads this
    {
      |trace| > 0 && Run(trace) && Init(trace[0])
    }

    function Now(): State
      requires |trace| > 0
      reads this
    {
      trace[|trace| - 1]
    }

    ghost predicate Valid()
      reads this
    {
      TraceOk() && sh == Now().sh
    }

    /** Both sides have started, and nothing has been rendered yet. */
    constructor (start: State)
      requires Init(start)
      ensures Valid() && trace == [start]
    {
      sh, trace := start.sh, [start];
    }

    /** The access just made to the header is step e of the machine. */
    method Record(e: Step)
      requires TraceOk() && Inv(Now()) && Enabled(Now(), e) && sh == Do(Now(), e).sh
      modifies this`trace
      ensures Valid() && Inv(Now()) && trace == old(trace) + [Do(old(Now()), e)]
    {
      StepInv(Now(), e);
      var s' := Do(Now(), e);
      assert Next(Now(), s');
      trace := trace + [s'];
    }

    /** Any number of steps of the other threads. */
    method Interfere(me: Thread)
      requires Valid()
      modifies this
      ensures Valid() && Inv(Now()) && old(trace) <= trace && Undisturbed(me, old(Now()), Now())
    {
      InitInv(trace[0]);
      RunInv(trace, |trace| - 1);
      ghost var before := Now();
      hide Inv, Do, Enabled, Undisturbed, Run, Init, Runs;
      Undisturbing(me, before);
      var n: nat :| true;
      for i := 0 to n
        invariant Valid() && Inv(Now()) && old(trace) <= trace && Undisturbed(me, before, Now())
      {
        var e: Step := *;
        if Enabled(Now(), e) && !Runs(me, e) {
          OthersDoNotDisturb(me, Now(), e);
          UndisturbedTwice(me, before, Now(), Do(Now(), e));
          sh := Do(Now(), e).sh;
          Record(e);
        }
      }
    }
  }

  lemma Undisturbing(t: Thread, s: State)
    ensures Undisturbed(t, s, s)
  {
  }

  // ---------------------------------------------------------------- the producer

  /** One call of render: what came of it is the one outcome it adds. */
  method Render(h: Header, writes: seq<int>, transformOk: bool, pts: int) returns (outcome: Outcome)
    requires h.Valid() && h.Now().wpc == WIdle
    modifies h
    ensures h.Valid() && h.Now().wpc == WIdle && old(h.trace) <= h.trace
    ensures h.Now().outcomes == old(h.Now().outcomes) + [outcome]
    ensures outcome.Published? ==> transformOk && outcome.frame == old(h.Now().nextFrame)
    ensures h.Now().nextFrame == old(h.Now().nextFrame) + if outcome.Published? then 1 else 0
    ensures outcome.Failed? ==> !transformOk
  {
    hide Run, Init, Inv;
    h.Interfere(Producer);
    EnabledRender(h.Now());
    h.Record(SlotProtocol.Render);
    var target := Scan(h);
    if target.None? { return Dropped; }
    h.Interfere(Producer);
    outcome := Publish(h, target.value, writes, transformOk, pts);
  }

  lemma EnabledRender(s: State)
    requires Inv(s) && s.wpc == WIdle
    ensures Enabled(s, SlotProtocol.Render) && Do(s, SlotProtocol.Render) == s.(wpc := WScan(0))
  {
  }

  /** The scan: one compare-and-swap from 0 to -1 per slot until one succeeds. */
  method Scan(h: Header) returns (target: Option<nat>)
    requires h.Valid() && Inv(h.Now()) && h.Now().wpc == WScan(0)
    modifies h
    ensures h.Valid() && Inv(h.Now()) && old(h.trace) <= h.trace && h.Now().nextFrame == old(h.Now().nextFrame)
    ensures target.None? ==> h.Now().wpc == WIdle && h.Now().outcomes == old(h.Now().outcomes) + [Dropped]
    ensures target.Some? ==> h.Now().wpc == WCopy(target.value) && h.Now().outcomes == old(h.Now().outcomes)
  {
    hide Run, Init, Inv;
    var n := |h.sh.counts|;
    PoolSize(h.Now());
    for i := 0 to n
      invariant h.Valid() && Inv(h.Now()) && old(h.trace) <= h.trace
      invariant |h.sh.counts| == n && h.Now().nextFrame == old(h.Now().nextFrame)
      invariant i < n ==> h.Now().wpc == WScan(i) && h.Now().outcomes == old(h.Now().outcomes)
      invariant i == n ==> h.Now().wpc == WIdle && h.Now().outcomes == old(h.Now().outcomes) + [Dropped]
    {
      h.Interfere(Producer);
      var idx := (0 + 1 + i) % n;
      TryLockIs(h.Now(), i, idx);
      if h.sh.counts[idx] == 0 {
        h.sh := h.sh.(counts := h.sh.counts[idx := -1]);
        h.Record(TryLock);
        return Some(idx);
      }
      h.Record(TryLock);
    }
    target := None;
  }

  lemma PoolSize(s: State)
    requires Inv(s)
    ensures |s.sh.counts| >= MIN_POOL_SIZE
  {
  }

  lemma TryLockIs(s: State, i: nat, idx: nat)
    requires Inv(s) && s.wpc == WScan(i) && i < |s.sh.counts| && idx == (0 + 1 + i) % |s.sh.counts|
    ensures Enabled(s, TryLock) && idx < |s.sh.counts|
    ensures Do(s, TryLock)
            == (if s.sh.counts[idx] == 0 then s.(sh := s.sh.(counts := s.sh.counts[idx := -1]), wpc := WCopy(idx))
                else if i + 1 < |s.sh.counts| then s.(wpc := WScan(i + 1))
                else s.(wpc := WIdle, outcomes := s.outcomes + [Dropped]))
  {
  }

  /** The transform: any number of writes to the locked slot, with other threads acting in between. */
  method Transform(h: Header, t: nat, writes: seq<int>)
    requires h.Valid() && Inv(h.Now()) && h.Now().wpc == WCopy(t)
    modifies h
    ensures h.Valid() && Inv(h.Now()) && old(h.trace) <= h.trace
    ensures h.Now().wpc == WCopy(t) && h.Now().outcomes == old(h.Now().outcomes)
    ensures h.Now().nextFrame == old(h.Now().nextFrame)
    ensures t < |h.sh.pixels| && (writes != [] ==> h.sh.pixels[t] == writes[|writes| - 1])
  {
    hide Run, Init, Inv;
    PaintIs(h.Now(), t, 0);
    for i := 0 to |writes|
      invariant h.Valid() && Inv(h.Now()) && old(h.trace) <= h.trace
      invariant h.Now().wpc == WCopy(t) && h.Now().outcomes == old(h.Now().outcomes)
      invariant h.Now().nextFrame == old(h.Now().nextFrame)
      invariant t < |h.sh.pixels| && (i > 0 ==> h.sh.pixels[t] == writes[i - 1])
    {
      h.Interfere(Producer);
      PaintIs(h.Now(), t, writes[i]);
      h.sh := h.sh.(pixels := h.sh.pixels[t := writes[i]]);
      h.Record(Paint(writes[i]));
    }
  }

  /** After the lock: transform and unlock, then the header stores. */
  method Publish(h: Header, t: nat, writes: seq<int>, transformOk: bool, pts: int) returns (outcome: Outcome)
    requires h.Valid() && Inv(h.Now()) && h.Now().wpc == WCopy(t)
    modifies h
    ensures h.Valid() && h.Now().wpc == WIdle && old(h.trace) <= h.trace
    ensures h.Now().outcomes == old(h.Now().outcomes) + [outcome]
    ensures outcome == if transformOk then Published(old(h.Now().nextFrame)) else Failed
    ensures h.Now().nextFrame == old(h.Now().nextFrame) + if transformOk then 1 else 0
  {
    hide Run, Init, Inv;
    Transform(h, t, writes);
    h.Interfere(Producer);
    TransformIs(h.Now(), t, transformOk);
    h.Record(TransformDone(transformOk));
    h.Interfere(Producer);
    StoreIs(h.Now(), t, pts);
    h.sh := h.sh.(counts := h.sh.counts[t := 0]);
    h.Record(WriterNext(pts));
    if !transformOk { return Failed; }
    outcome := Announce(h, t, pts);
  }

  /** The header stores, in the order of the code: index and time, then Number. */
  method Announce(h: Header, t: nat, pts: int) returns (outcome: Outcome)
    requires h.Valid() && Inv(h.Now()) && h.Now().wpc == WStoreIdx(t)
    modifies h
    ensures h.Valid() && h.Now().wpc == WIdle && old(h.trace) <= h.trace
    ensures outcome == Published(old(h.Now().nextFrame))
    ensures h.Now().outcomes == old(h.Now().outcomes) + [outcome]
    ensures h.Now().nextFrame == old(h.Now().nextFrame) + 1
  {
    hide Run, Init, Inv;
    h.Interfere(Producer);
    StoreIs(h.Now(), t, pts);
    h.sh := h.sh.(writeIdx := t);
    h.Record(WriterNext(pts));
    h.Interfere(Producer);
    StoreIs(h.Now(), t, pts);
    h.sh := h.sh.(timestamp := pts);
    h.Record(WriterNext(pts));
    outcome := Number(h, pts);
  }

  /** The frame number, and then the ready flag. */
  method Number(h: Header, pts: int) returns (outcome: Outcome)
    requires h.Valid() && Inv(h.Now()) && h.Now().wpc == WStoreFrame
    modifies h
    ensures h.Valid() && h.Now().wpc == WIdle && old(h.trace) <= h.trace
    ensures outcome == Published(old(h.Now().nextFrame))
    ensures h.Now().outcomes == old(h.Now().outcomes) + [outcome]
    ensures h.Now().nextFrame == old(h.Now().nextFrame) + 1
  {
    hide Run, Init, Inv;
    var frame := h.Now().nextFrame;
    h.Interfere(Producer);
    StoreIs(h.Now(), 0, pts);
    h.sh := h.sh.(frameNumber := frame);
    h.Record(WriterNext(pts));
    h.Interfere(Producer);
    StoreIs(h.Now(), 0, pts);
    h.sh := h.sh.(ready := true);
    h.Record(WriterNext(pts));
    outcome := Published(frame);
  }

  lemma PaintIs(s: State, t: nat, v: int)
    requires Inv(s) && s.wpc == WCopy(t)
    ensures Enabled(s, Paint(v)) && t < |s.sh.pixels|
    ensures Do(s, Paint(v)) == s.(sh := s.sh.(pixels := s.sh.pixels[t := v]))
  {
  }

  lemma TransformIs(s: State, t: nat, ok: bool)
    requires Inv(s) && s.wpc == WCopy(t)
    ensures Enabled(s, TransformDone(ok))
    ensures Do(s, TransformDone(ok)) == s.(wpc := if ok then WCopied(t) else WFailed(t))
  {
  }

  lemma StoreIs(s: State, t: nat, pts: int)
    requires Inv(s) && !s.wpc.WIdle? && !s.wpc.WScan? && !s.wpc.WCopy?
    ensures Enabled(s, WriterNext(pts)) && Do(s, WriterNext(pts)) == WriterAfterStore(s, pts)
    ensures s.wpc == WCopied(t) || s.wpc == WFailed(t) ==> t < |s.sh.counts|
  {
  }

  // ---------------------------------------------------------------- a consumer

  /** The private state of one consumer beside its position in the code. */
  class Source {
    const r: nat
    const ring: array<Option<nat>>
    var ringHead: nat
    var last: nat

    constructor (r: nat)
      ensures this.r == r && fresh(ring) && ringHead == 0 && last == 0
      ensures ring[..] == seq(RELEASE_DELAY, _ => None)
    {
      this.r := r;
      ring := new Option<nat>[RELEASE_DELAY](_ => None);
      ringHead, last := 0, 0;
    }

    /** The fields are those of consumer r. */
    ghost predicate Matches(s: State)
      reads this, ring
    {
      && r < |s.readers| && ring[..] == s.readers[r].ring
      && ringHead == s.readers[r].head && last == s.readers[r].last
    }

    /** The consumer moves: its step is recorded after the access it makes. */
    method Advance(h: Header)
      requires h.TraceOk() && Inv(h.Now()) && Matches(h.Now()) && Enabled(h.Now(), ReaderNext(r))
      requires h.sh == Do(h.Now(), ReaderNext(r)).sh
      requires var rd := h.Now().readers[r]; !rd.pc.RRingStore? && !rd.pc.RLoadFrame? && !rd.pc.RStopping?
      modifies h
      ensures h.Valid() && Inv(h.Now()) && Matches(h.Now())
      ensures h.trace == old(h.trace) + [Do(old(h.Now()), ReaderNext(r))]
    {
      h.Record(ReaderNext(r));
    }

    /** This consumer in the latest state. */
    function Me(h: Header): Reader
      requires |h.trace| > 0 && r < |h.Now().readers|
      reads this, h
    {
      h.Now().readers[r]
    }

    /** Nothing this consumer owns has changed but its position. */
    twostate predicate OnlyMoved(h: Header, pc: ReaderPc)
      requires |old(h.trace)| > 0 && r < |old(h.Now()).readers| && |h.trace| > 0 && r < |h.Now().readers|
      reads this, h
    {
      Me(h) == old(Me(h)).(pc := pc)
    }

    method GiveUp(h: Header)
      requires h.Valid() && Inv(h.Now()) && Matches(h.Now()) && MayGiveUp(Me(h).pc)
      modifies h
      ensures h.Valid() && Inv(h.Now()) && Matches(h.Now()) && old(h.trace) <= h.trace
      ensures OnlyMoved(h, RIdle)
    {
      h.Record(SlotProtocol.GiveUp(r));
    }

    /** Other threads act; this consumer stays where it is. */
    method Yield(h: Header)
      requires h.Valid() && Matches(h.Now())
      modifies h
      ensures h.Valid() && Inv(h.Now()) && Matches(h.Now()) && old(h.trace) <= h.trace
      ensures Me(h) == old(Me(h))
    {
      hide Inv, Run, Init;
      h.Interfere(Consumer(r));
    }

    /** The wait: until the ready flag is up with a frame number other than the last one. */
    method Poll(h: Header) returns (found: bool)
      requires h.Valid() && Inv(h.Now()) && Matches(h.Now()) && Me(h).pc == RPollReady
      modifies h
      ensures h.Valid() && Inv(h.Now()) && Matches(h.Now()) && old(h.trace) <= h.trace
      ensures OnlyMoved(h, if found then RLoadIdx else RIdle)
    {
      hide Inv, Run, Init, Do, Enabled;
      var attempts := 0;
      while true
        invariant h.Valid() && Inv(h.Now()) && Matches(h.Now()) && old(h.trace) <= h.trace
        invariant OnlyMoved(h, RPollReady)
        decreases 2001 - attempts
      {
        Yield(h);
        var ready := h.sh.ready;
        NextIs(h.Now(), r);
        Advance(h);
        if ready {
          Yield(h);
          var frame := h.sh.frameNumber;
          NextIs(h.Now(), r);
          Advance(h);
          if frame != last { return true; }
        }
        var flushing: bool := *;
        attempts := attempts + 1;
        if flushing || attempts > 2000 {
          GiveUp(h);
          return false;
        }
      }
    }

    /** Index load and acquisition: the count goes up by one from a value that is not negative.
        `patience` bounds how often a lost compare-and-swap is tried again. */
    method TakeSlot(h: Header, patience: nat) returns (slot: Option<nat>)
      requires h.Valid() && Inv(h.Now()) && Matches(h.Now()) && Me(h).pc == RLoadIdx
      modifies h
      ensures h.Valid() && Inv(h.Now()) && Matches(h.Now()) && old(h.trace) <= h.trace
      ensures slot.None? ==> OnlyMoved(h, RIdle)
      ensures slot.Some? ==>
                && Me(h) == old(Me(h)).(pc := RReturnOldest(slot.value), taken := old(Me(h)).taken + [slot.value])
                && JustTook(h.trace, r, slot.value)
    {
      hide Inv, Run, Init, Do, Enabled;
      var badMagic: bool := *;
      if badMagic {
        GiveUp(h);
        return None;
      }
      Yield(h);
      var idx := h.sh.writeIdx;
      NextIs(h.Now(), r);
      Advance(h);
      if idx >= |h.sh.counts| { return None; }
      slot := Acquire(h, idx, patience);
    }

    /** The compare-and-swap loop. */
    method Acquire(h: Header, first: nat, patience: nat) returns (slot: Option<nat>)
      requires h.Valid() && Inv(h.Now()) && Matches(h.Now()) && Me(h).pc == RLoadCount(first)
      modifies h
      ensures h.Valid() && Inv(h.Now()) && Matches(h.Now()) && old(h.trace) <= h.trace
      ensures slot.None? ==> OnlyMoved(h, RIdle)
      ensures slot.Some? ==>
                && Me(h) == old(Me(h)).(pc := RReturnOldest(slot.value), taken := old(Me(h)).taken + [slot.value])
                && JustTook(h.trace, r, slot.value)
    {
      hide Inv, Run, Init, Do, Enabled;
      var idx, attempts, tries := first, 0, patience;
      while true
        invariant h.Valid() && Inv(h.Now()) && Matches(h.Now()) && old(h.trace) <= h.trace
        invariant OnlyMoved(h, RLoadCount(idx)) && attempts <= 1000
        decreases 1001 - attempts + tries
      {
        var oldVal := LoadCount(h, idx);
        if oldVal < 0 {
          idx := ReloadIndex(h);
          attempts := attempts + 1;
          if attempts > 1000 {
            GiveUp(h);
            return None;
          }
          continue;
        }
        var won := Swap(h, idx, oldVal);
        if won { return Some(idx); }
        if tries == 0 {
          GiveUp(h);
          return None;
        }
        tries := tries - 1;
      }
    }

    method LoadCount(h: Header, idx: nat) returns (oldVal: int)
      requires h.Valid() && Inv(h.Now()) && Matches(h.Now()) && Me(h).pc == RLoadCount(idx)
      modifies h
      ensures h.Valid() && Inv(h.Now()) && Matches(h.Now()) && old(h.trace) <= h.trace
      ensures OnlyMoved(h, if oldVal < 0 then RReloadIdx else RCas(idx, oldVal))
    {
      hide Inv, Run, Init, Do, Enabled;
      Yield(h);
      NextIs(h.Now(), r);
      CountInRange(h.Now(), r);
      oldVal := h.sh.counts[idx];
      Advance(h);
    }

    method ReloadIndex(h: Header) returns (idx: nat)
      requires h.Valid() && Inv(h.Now()) && Matches(h.Now()) && Me(h).pc == RReloadIdx
      modifies h
      ensures h.Valid() && Inv(h.Now()) && Matches(h.Now()) && old(h.trace) <= h.trace
      ensures OnlyMoved(h, RLoadCount(idx))
    {
      hide Inv, Run, Init, Do, Enabled;
      Yield(h);
      NextIs(h.Now(), r);
      idx := h.sh.writeIdx;
      Advance(h);
    }

    /** One compare-and-swap from oldVal to oldVal + 1. */
    method Swap(h: Header, idx: nat, oldVal: int) returns (won: bool)
      requires h.Valid() && Inv(h.Now()) && Matches(h.Now()) && Me(h).pc == RCas(idx, oldVal)
      modifies h
      ensures h.Valid() && Inv(h.Now()) && Matches(h.Now()) && old(h.trace) <= h.trace
      ensures Me(h) == if won then old(Me(h)).(pc := RReturnOldest(idx), taken := old(Me(h)).taken + [idx])
                       else old(Me(h)).(pc := RLoadCount(idx))
      ensures won ==> JustTook(h.trace, r, idx)
    {
      hide Inv, Run, Init, Do, Enabled;
      Yield(h);
      NextIs(h.Now(), r);
      CountInRange(h.Now(), r);
      won := h.sh.counts[idx] == oldVal;
      if won { h.sh := h.sh.(counts := h.sh.counts[idx := oldVal + 1]); }
      Advance(h);
    }

    /** The reference taken RELEASE_DELAY deliveries ago goes back. */
    method ReturnOldest(h: Header, idx: nat)
      requires h.Valid() && Inv(h.Now()) && Matches(h.Now()) && Me(h).pc == RReturnOldest(idx)
      modifies h
      ensures h.Valid() && Inv(h.Now()) && Matches(h.Now()) && old(h.trace) <= h.trace
      ensures OnlyMoved(h, RRingStore(idx)) && |h.trace| >= 2
      ensures var before := h.trace[|h.trace| - 2].sh;
              match ring[ringHead]
              case None => h.sh == before
              case Some(o) => o < |before.counts| && h.sh == before.(counts := before.counts[o := before.counts[o] - 1])
    {
      hide Inv, Run, Init, Do, Enabled;
      Yield(h);
      NextIs(h.Now(), r);
      var oldest := ring[ringHead];
      if oldest.Some? {
        h.sh := h.sh.(counts := h.sh.counts[oldest.value := h.sh.counts[oldest.value] - 1]);
      }
      Advance(h);
    }

    /** The new reference enters the ring in its place. */
    method StoreNewest(h: Header, idx: nat)
      requires h.Valid() && Inv(h.Now()) && Matches(h.Now()) && Me(h).pc == RRingStore(idx)
      modifies h, this, ring
      ensures h.Valid() && Inv(h.Now()) && Matches(h.Now()) && old(h.trace) <= h.trace
      ensures Me(h) == old(Me(h)).(pc := RLoadTime, ring := old(ring[..])[old(ringHead) := Some(idx)],
                                   head := (old(ringHead) + 1) % RELEASE_DELAY)
    {
      hide Inv, Run, Init, Do, Enabled;
      Yield(h);
      NextIs(h.Now(), r);
      h.Record(ReaderNext(r));
      ring[ringHead] := Some(idx);
      ringHead := (ringHead + 1) % RELEASE_DELAY;
    }

    /** Time and number for the buffer that is handed out. */
    method Stamp(h: Header) returns (pts: int, frame: nat)
      requires h.Valid() && Inv(h.Now()) && Matches(h.Now()) && Me(h).pc == RLoadTime
      modifies h, this
      ensures h.Valid() && Inv(h.Now()) && Matches(h.Now()) && old(h.trace) <= h.trace
      ensures Me(h) == old(Me(h)).(pc := RIdle, last := frame, delivered := old(Me(h)).delivered + [frame])
      ensures frame > old(Me(h)).last
    {
      hide Inv, Run, Init, Do, Enabled;
      Yield(h);
      pts := h.sh.timestamp;
      NextIs(h.Now(), r);
      Advance(h);
      Yield(h);
      NextIs(h.Now(), r);
      frame := h.sh.frameNumber;
      h.Record(ReaderNext(r));
      last := frame;
    }

    /** create: a slot of which this consumer now holds a reference, or nothing. */
    method Create(h: Header, patience: nat) returns (slot: Option<nat>, pts: int, frame: nat)
      requires h.Valid() && Matches(h.Now()) && Me(h).pc == RIdle
      modifies h, this, ring
      ensures h.Valid() && Inv(h.Now()) && Matches(h.Now()) && old(h.trace) <= h.trace && Me(h).pc == RIdle
      ensures slot.None? ==> OnlyMoved(h, RIdle)
      ensures slot.Some? ==>
                && Me(h).taken == old(Me(h)).taken + [slot.value]
                && Me(h).delivered == old(Me(h)).delivered + [frame]
                && old(last) < frame == last
                && Pinned(Me(h), |old(Me(h)).taken|) && Held(Me(h), slot.value) > 0
                && DeliversFilled(h.trace, r, |old(h.trace)|, slot.value)
    {
      hide Inv, Run, Init, Do, Enabled, JustTook, DeliversFilled;
      ghost var began := |h.trace| - 1;
      slot, pts, frame := None, 0, 0;
      Yield(h);
      CreateIs(h.Now(), r);
      h.Record(SlotProtocol.Create(r));
      var found := Poll(h);
      if !found { return; }
      slot := TakeSlot(h, patience);
      if slot.None? { return; }
      assert h.trace[began].readers[r].pc == RIdle;
      JustTookFilled(h.trace, r, began, slot.value);
      ghost var soFar := h.trace;
      pts, frame := Deliver(h, slot.value);
      DeliversInLonger(soFar, h.trace, r, began + 1, slot.value);
    }

    /** From the acquisition to the end of create. */
    method Deliver(h: Header, slot: nat) returns (pts: int, frame: nat)
      requires h.Valid() && Inv(h.Now()) && Matches(h.Now()) && Me(h).pc == RReturnOldest(slot)
      requires Me(h).taken != [] && Me(h).taken[|Me(h).taken| - 1] == slot
      modifies h, this, ring
      ensures h.Valid() && Inv(h.Now()) && Matches(h.Now()) && old(h.trace) <= h.trace && Me(h).pc == RIdle
      ensures Me(h).taken == old(Me(h)).taken && Me(h).delivered == old(Me(h)).delivered + [frame]
      ensures old(last) < frame == last
      ensures Pinned(Me(h), |Me(h).taken| - 1) && Held(Me(h), slot) > 0
    {
      hide Inv, Run, Init, Do, Enabled, Held, Pinned;
      ReturnOldest(h, slot);
      StoreNewest(h, slot);
      pts, frame := Stamp(h);
      DeliveredIsHeld(h.Now(), r);
    }

    /** stop: every reference in the ring goes back. */
    method Stop(h: Header)
      requires h.Valid() && Matches(h.Now()) && Me(h).pc == RIdle
      modifies h, this, ring
      ensures h.Valid() && Inv(h.Now()) && Matches(h.Now()) && old(h.trace) <= h.trace && Me(h).pc == RStopped
      ensures forall x :: Held(Me(h), x) == 0
    {
      hide Inv, Run, Init, Do, Enabled, Held;
      Yield(h);
      StopIs(h.Now(), r);
      h.Record(SlotProtocol.Stop(r));
      for i := 0 to RELEASE_DELAY
        invariant h.Valid() && Inv(h.Now()) && Matches(h.Now()) && old(h.trace) <= h.trace
        invariant Me(h).pc == if i < RELEASE_DELAY then RStopping(i) else RStopped
      {
        Yield(h);
        NextIs(h.Now(), r);
        ReturnEntry(h, i);
      }
      forall x ensures Held(Me(h), x) == 0 { StoppedHoldsNothing(h.trace, |h.trace| - 1, r, x); }
    }

    /** Ring entry i goes back. */
    method ReturnEntry(h: Header, i: nat)
      requires h.Valid() && Inv(h.Now()) && Matches(h.Now()) && Me(h).pc == RStopping(i) && i < RELEASE_DELAY
      modifies h, ring
      ensures h.Valid() && Inv(h.Now()) && Matches(h.Now()) && old(h.trace) <= h.trace
      ensures Me(h).pc == if i + 1 < RELEASE_DELAY then RStopping(i + 1) else RStopped
    {
      hide Inv, Run, Init, Do, Enabled;
      NextIs(h.Now(), r);
      var held := ring[i];
      if held.Some? {
        h.sh := h.sh.(counts := h.sh.counts[held.value := h.sh.counts[held.value] - 1]);
      }
      h.Record(ReaderNext(r));
      ring[i] := None;
    }

    /** start: the consumer has seen no frame yet; its ring and head stay as stop left them. */
    method Start(h: Header)
      requires h.Valid() && Matches(h.Now()) && Me(h).pc == RStopped
      modifies h, this
      ensures h.Valid() && Inv(h.Now()) && Matches(h.Now()) && old(h.trace) <= h.trace && Me(h).pc == RIdle && last == 0
    {
      hide Inv, Run, Init, Do, Enabled;
      Yield(h);
      StartIs(h.Now(), r);
      h.Record(SlotProtocol.Start(r));
      last := 0;
    }
  }

  lemma NextIs(s: State, r: nat)
    requires Inv(s) && r < |s.readers| && !s.readers[r].pc.RIdle? && !s.readers[r].pc.RStopped?
    ensures Enabled(s, ReaderNext(r))
    ensures ReaderOk(s.readers[r], |s.sh.counts|, s.sh.frameNumber) && s.sh.writeIdx < |s.sh.counts|
    ensures var (sh, rd) := ReaderAfter(s.sh, s.readers[r]);
            Do(s, ReaderNext(r)) == s.(sh := sh, readers := s.readers[r := rd])
  {
  }

  lemma CreateIs(s: State, r: nat)
    requires Inv(s) && r < |s.readers| && s.readers[r].pc == RIdle
    ensures Enabled(s, SlotProtocol.Create(r))
    ensures Do(s, SlotProtocol.Create(r)) == s.(readers := s.readers[r := s.readers[r].(pc := RPollReady)])
  {
  }

  lemma StopIs(s: State, r: nat)
    requires Inv(s) && r < |s.readers| && s.readers[r].pc == RIdle
    ensures Enabled(s, SlotProtocol.Stop(r))
    ensures Do(s, SlotProtocol.Stop(r)) == s.(readers := s.readers[r := s.readers[r].(pc := RStopping(0))])
  {
  }

  lemma StartIs(s: State, r: nat)
    requires Inv(s) && r < |s.readers| && s.readers[r].pc == RStopped
    ensures Enabled(s, SlotProtocol.Start(r))
    ensures Do(s, SlotProtocol.Start(r))
            == s.(readers := s.readers[r := s.readers[r].(pc := RIdle, last := 0, delivered := [])])
  {
  }

  /** Between calls the slot taken last is pinned. */
  lemma DeliveredIsHeld(s: State, r: nat)
    requires Inv(s) && r < |s.readers| && s.readers[r].pc == RIdle && s.readers[r].taken != []
    ensures var rd := s.readers[r];
            Pinned(rd, |rd.taken| - 1) && Held(rd, rd.taken[|rd.taken| - 1]) > 0
  {
    var rd := s.readers[r];
    assert ReaderOk(rd, |s.sh.counts|, s.sh.frameNumber);
    PinnedIsHeld(rd, |s.sh.counts|, s.sh.frameNumber, |rd.taken| - 1);
  }

  /** The slot a consumer is about to look at is in the pool. */
  lemma CountInRange(s: State, r: nat)
    requires Inv(s) && r < |s.readers|
    ensures match s.readers[r].pc
            case RLoadCount(idx) => idx < |s.sh.counts|
            case RCas(idx, _) => idx < |s.sh.counts|
            case _ => true
  {
    assert ReaderOk(s.readers[r], |s.sh.counts|, s.sh.frameNumber);
  }
}
