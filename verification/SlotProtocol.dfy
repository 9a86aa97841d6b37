/** The zero-copy slot protocol between one producer (gst_nvmm_sink_render) and any
    number of consumers (gst_nvmm_app_src_create and _stop).

    Each constructor of Step is one atomic access to the shared header, together with
    the private bookkeeping that follows it, so a run interleaves producer and consumers
    at the granularity of single loads, stores and compare-and-swaps. */
module SlotProtocol {
  import opened Options
  import opened Sequences

  const RELEASE_DELAY: nat := 12
  const MIN_POOL_SIZE: nat := 13
  const MAX_POOL_SIZE: nat := 16

  // ---------------------------------------------------------------- state

  datatype WriterPc =
    | WIdle
    | WScan(i: nat)            // next: compare-and-swap on SlotAt(i)
    | WCopy(t: nat)            // slot t is locked, the transform is running
    | WFailed(t: nat)          // next: unlock t and return an error
    | WCopied(t: nat)          // next: unlock t
    | WStoreIdx(t: nat)
    | WStoreTime
    | WStoreFrame
    | WStoreReady

  datatype ReaderPc =
    | RStopped
    | RIdle                    // between calls of create
    | RPollReady
    | RPollFrame
    | RLoadIdx
    | RLoadCount(idx: nat)
    | RReloadIdx               // the slot was being written: read write_idx again
    | RCas(idx: nat, seen: int)
    | RReturnOldest(idx: nat)  // reference on idx taken; next: give back the oldest one
    | RRingStore(idx: nat)     // oldest one given back; next: overwrite its ring entry
    | RLoadTime
    | RLoadFrame
    | RStopping(i: nat)        // stop() has cleared ring entries below i

  /** NvmmShmHeader as both sides see it, and the pixels of the pool. */
  datatype Shared = Shared(
    counts: seq<int>,
    pixels: seq<int>,
    writeIdx: nat,
    timestamp: int,
    frameNumber: nat,
    ready: bool)

  /** A consumer. `taken` and `delivered` are history: the slots acquired and the frame
      numbers recorded since start, oldest first. */
  datatype Reader = Reader(
    pc: ReaderPc,
    last: nat,
    ring: seq<Option<nat>>,
    head: nat,
    taken: seq<nat>,
    delivered: seq<nat>)

  /** What became of a buffer handed to render. */
  datatype Outcome = Dropped | Failed | Published(frame: nat)

  datatype State = State(
    sh: Shared,
    wpc: WriterPc,
    nextFrame: nat,
    outcomes: seq<Outcome>,
    readers: seq<Reader>)

  datatype Step =
    | Render                        // render() is called with an NVMM buffer
    | TryLock
    | Paint(v: int)                 // any part of the transform's writes
    | TransformDone(ok: bool)
    | WriterNext(pts: int)          // the unlock or header store that comes next
    | Create(r: nat)
    | GiveUp(r: nat)                // flushing, time-out, retry limit or bad magic
    | ReaderNext(r: nat)
    | Start(r: nat)
    | Stop(r: nat)

  // ---------------------------------------------------------------- references

  function Is(e: Option<nat>, x: nat): nat {
    if e == Some(x) then 1 else 0
  }

  /** The references to slot x recorded in a release ring. */
  function RingCount(ring: seq<Option<nat>>, x: nat): nat {
    if ring == [] then 0 else Is(ring[0], x) + RingCount(ring[1..], x)
  }

  /** The references to slot x a consumer holds, including one taken but not yet in the
      ring and excluding one given back but not yet overwritten. */
  function Held(r: Reader, x: nat): int {
    RingCount(r.ring, x)
    + (match r.pc
       case RReturnOldest(idx) => Is(Some(idx), x)
       case RRingStore(idx) => Is(Some(idx), x) - (if r.head < |r.ring| then Is(r.ring[r.head], x) else 0)
       case _ => 0)
  }

  function AllHeld(readers: seq<Reader>, x: nat): int {
    if readers == [] then 0 else Held(readers[0], x) + AllHeld(readers[1..], x)
  }

  predicate Locks(w: WriterPc, x: nat) {
    (w.WCopy? || w.WFailed? || w.WCopied?) && w.t == x
  }

  /** The pool index probed by the i-th attempt; the producer's own write_idx stays 0. */
  function SlotAt(n: nat, i: nat): (x: nat)
    requires n > 0
    ensures x < n
  {
    (0 + 1 + i) % n
  }

  // ---------------------------------------------------------------- invariant

  predicate WriterOk(w: WriterPc, n: nat) {
    match w
    case WScan(i) => i < n
    case WCopy(t) => t < n
    case WFailed(t) => t < n
    case WCopied(t) => t < n
    case WStoreIdx(t) => t < n
    case _ => true
  }

  /** How many of `taken` have reached the ring. */
  function Stored(r: Reader): int {
    if r.pc.RReturnOldest? || r.pc.RRingStore? then |r.taken| - 1 else |r.taken|
  }

  predicate ReaderPcOk(r: Reader, n: nat)
    requires |r.ring| == RELEASE_DELAY
  {
    match r.pc
    case RLoadCount(idx) => idx < n
    case RCas(idx, seen) => idx < n && seen >= 0
    case RReturnOldest(idx) => idx < n && |r.taken| > 0 && r.taken[|r.taken| - 1] == idx
    case RRingStore(idx) => idx < n && |r.taken| > 0 && r.taken[|r.taken| - 1] == idx
    case RStopping(i) => i < RELEASE_DELAY && forall j :: 0 <= j < i ==> r.ring[j] == None
    case RStopped => forall j :: 0 <= j < RELEASE_DELAY ==> r.ring[j] == None
    case _ => true
  }

  /** The i-th ring entry counted from the head. */
  function RingAt(r: Reader, i: nat): Option<nat>
    requires |r.ring| == RELEASE_DELAY
  {
    r.ring[(r.head + i) % RELEASE_DELAY]
  }

  /** Read from the head, the ring lists the slots taken last, oldest first. */
  predicate RingIsWindow(r: Reader)
    requires |r.ring| == RELEASE_DELAY && 0 <= Stored(r) <= |r.taken|
  {
    forall i :: 0 <= i < RELEASE_DELAY ==>
      RingAt(r, i)
      == if Stored(r) - RELEASE_DELAY + i < 0 then None else Some(r.taken[Stored(r) - RELEASE_DELAY + i])
  }

  /** The frame number a consumer polls for is strictly newer once it left the poll loop. */
  predicate FramesOk(r: Reader, frameNumber: nat) {
    && r.last <= frameNumber
    && (!r.pc.RStopped? && !r.pc.RIdle? && !r.pc.RPollReady? && !r.pc.RPollFrame? && !r.pc.RStopping?
        ==> r.last < frameNumber)
    && Increasing(r.delivered)
    && (forall k :: 0 <= k < |r.delivered| ==> 0 < r.delivered[k] <= r.last)
  }

  predicate ReaderOk(r: Reader, n: nat, frameNumber: nat) {
    && |r.ring| == RELEASE_DELAY
    && r.head < RELEASE_DELAY
    && (forall j :: 0 <= j < RELEASE_DELAY && r.ring[j].Some? ==> r.ring[j].value < n)
    && ReaderPcOk(r, n)
    && (!r.pc.RStopping? ==> RingIsWindow(r))
    && FramesOk(r, frameNumber)
  }

  /** Each count is the writer's lock or the exact number of references held. */
  predicate CountsExact(s: State) {
    forall x :: 0 <= x < |s.sh.counts| ==>
      if Locks(s.wpc, x) then s.sh.counts[x] == -1 && AllHeld(s.readers, x) == 0
      else s.sh.counts[x] == AllHeld(s.readers, x)
  }

  function PublishedFrames(outcomes: seq<Outcome>): seq<nat> {
    if outcomes == [] then []
    else
      var init := PublishedFrames(outcomes[..|outcomes| - 1]);
      var o := outcomes[|outcomes| - 1];
      if o.Published? then init + [o.frame] else init
  }

  predicate NumberingOk(s: State) {
    && (var p := PublishedFrames(s.outcomes);
        && |p| == s.nextFrame
        && (forall k :: 0 <= k < |p| ==> p[k] == k))
    && s.sh.frameNumber == (if s.nextFrame == 0 then 0 else s.nextFrame - 1)
  }

  predicate Shape(s: State) {
    && MIN_POOL_SIZE <= |s.sh.counts| <= MAX_POOL_SIZE
    && |s.sh.pixels| == |s.sh.counts|
    && s.sh.writeIdx < |s.sh.counts|
    && WriterOk(s.wpc, |s.sh.counts|)
  }

  predicate Inv(s: State) {
    && Shape(s)
    && (forall k :: 0 <= k < |s.readers| ==> ReaderOk(s.readers[k], |s.sh.counts|, s.sh.frameNumber))
    && CountsExact(s)
    && NumberingOk(s)
  }

  // ---------------------------------------------------------------- transitions

  predicate Init(s: State) {
    && MIN_POOL_SIZE <= |s.sh.counts| <= MAX_POOL_SIZE
    && |s.sh.pixels| == |s.sh.counts|
    && (forall x :: 0 <= x < |s.sh.counts| ==> s.sh.counts[x] == 0)
    && s.sh.writeIdx == 0 && s.sh.frameNumber == 0 && !s.sh.ready
    && s.wpc == WIdle && s.nextFrame == 0 && s.outcomes == []
    && forall k :: 0 <= k < |s.readers| ==>
         && s.readers[k].pc == RStopped && s.readers[k].last == 0 && s.readers[k].head < RELEASE_DELAY
         && s.readers[k].ring == seq(RELEASE_DELAY, i => None)
         && s.readers[k].taken == [] && s.readers[k].delivered == []
  }

  /** The state both sides start from: a zeroed header and k stopped consumers. */
  function StartState(n: nat, k: nat): (s: State)
    requires MIN_POOL_SIZE <= n <= MAX_POOL_SIZE
    ensures Init(s) && |s.sh.counts| == n && |s.readers| == k
  {
    var empty := seq(RELEASE_DELAY, _ => None);
    State(Shared(seq(n, _ => 0), seq(n, _ => 0), 0, 0, 0, false), WIdle, 0, [],
          seq(k, _ => Reader(RStopped, 0, empty, 0, [], [])))
  }

  function WriterAfterStore(s: State, pts: int): State
    requires Inv(s)
  {
    match s.wpc
    case WFailed(t) =>
      s.(sh := s.sh.(counts := s.sh.counts[t := 0]), wpc := WIdle, outcomes := s.outcomes + [Failed])
    case WCopied(t) =>
      s.(sh := s.sh.(counts := s.sh.counts[t := 0]), wpc := WStoreIdx(t))
    case WStoreIdx(t) => s.(sh := s.sh.(writeIdx := t), wpc := WStoreTime)
    case WStoreTime => s.(sh := s.sh.(timestamp := pts), wpc := WStoreFrame)
    case WStoreFrame =>
      s.(sh := s.sh.(frameNumber := s.nextFrame), nextFrame := s.nextFrame + 1, wpc := WStoreReady,
         outcomes := s.outcomes + [Published(s.nextFrame)])
    case WStoreReady => s.(sh := s.sh.(ready := true), wpc := WIdle)
    case _ => s
  }

  /** One compare-and-swap of the scan; the last failing one drops the frame. */
  function AfterTryLock(s: State): State
    requires Inv(s) && s.wpc.WScan?
  {
    var n := |s.sh.counts|;
    var x := SlotAt(n, s.wpc.i);
    if s.sh.counts[x] == 0 then s.(sh := s.sh.(counts := s.sh.counts[x := -1]), wpc := WCopy(x))
    else if s.wpc.i + 1 < n then s.(wpc := WScan(s.wpc.i + 1))
    else s.(wpc := WIdle, outcomes := s.outcomes + [Dropped])
  }

  /** The next access of a consumer inside create or stop: the new header counts and the
      new consumer. */
  function ReaderAfter(sh: Shared, r: Reader): (Shared, Reader)
    requires ReaderOk(r, |sh.counts|, sh.frameNumber) && sh.writeIdx < |sh.counts|
  {
    match r.pc
    case RPollReady => (sh, r.(pc := if sh.ready then RPollFrame else RPollReady))
    case RPollFrame => (sh, r.(pc := if sh.frameNumber == r.last then RPollReady else RLoadIdx))
    case RLoadIdx => (sh, r.(pc := if sh.writeIdx >= |sh.counts| then RIdle else RLoadCount(sh.writeIdx)))
    case RLoadCount(idx) =>
      (sh, r.(pc := if sh.counts[idx] < 0 then RReloadIdx else RCas(idx, sh.counts[idx])))
    case RReloadIdx => (sh, r.(pc := RLoadCount(sh.writeIdx)))
    case RCas(idx, seen) =>
      if sh.counts[idx] == seen then
        (sh.(counts := sh.counts[idx := seen + 1]), r.(pc := RReturnOldest(idx), taken := r.taken + [idx]))
      else (sh, r.(pc := RLoadCount(idx)))
    case RReturnOldest(idx) =>
      (match r.ring[r.head]
       case Some(o) => (sh.(counts := sh.counts[o := sh.counts[o] - 1]), r.(pc := RRingStore(idx)))
       case None => (sh, r.(pc := RRingStore(idx))))
    case RRingStore(idx) =>
      (sh, r.(pc := RLoadTime, ring := r.ring[r.head := Some(idx)], head := (r.head + 1) % RELEASE_DELAY))
    case RLoadTime => (sh, r.(pc := RLoadFrame))
    case RLoadFrame =>
      (sh, r.(pc := RIdle, last := sh.frameNumber, delivered := r.delivered + [sh.frameNumber]))
    case RStopping(i) =>
      var r1 := r.(ring := r.ring[i := None]);
      var r2 := if i + 1 < RELEASE_DELAY then r1.(pc := RStopping(i + 1))
                else r1.(pc := RStopped, taken := []);
      (match r.ring[i]
       case Some(o) => (sh.(counts := sh.counts[o := sh.counts[o] - 1]), r2)
       case None => (sh, r2))
    case _ => (sh, r)
  }

  predicate MayGiveUp(pc: ReaderPc) {
    pc.RPollReady? || pc.RPollFrame? || pc.RLoadIdx? || pc.RReloadIdx? || pc.RLoadCount?
  }

  predicate Enabled(s: State, e: Step) {
    match e
    case Render => s.wpc.WIdle?
    case TryLock => s.wpc.WScan?
    case Paint(_) => s.wpc.WCopy?
    case TransformDone(_) => s.wpc.WCopy?
    case WriterNext(_) => !s.wpc.WIdle? && !s.wpc.WScan? && !s.wpc.WCopy?
    case Create(r) => r < |s.readers| && s.readers[r].pc.RIdle?
    case GiveUp(r) => r < |s.readers| && MayGiveUp(s.readers[r].pc)
    case ReaderNext(r) => r < |s.readers| && !s.readers[r].pc.RIdle? && !s.readers[r].pc.RStopped?
    case Start(r) => r < |s.readers| && s.readers[r].pc.RStopped?
    case Stop(r) => r < |s.readers| && s.readers[r].pc.RIdle?
  }

  function Do(s: State, e: Step): State
    requires Inv(s) && Enabled(s, e)
  {
    match e
    case Render => s.(wpc := WScan(0))
    case TryLock => AfterTryLock(s)
    case Paint(v) => s.(sh := s.sh.(pixels := s.sh.pixels[s.wpc.t := v]))
    case TransformDone(ok) => s.(wpc := if ok then WCopied(s.wpc.t) else WFailed(s.wpc.t))
    case WriterNext(pts) => WriterAfterStore(s, pts)
    case Create(r) => s.(readers := s.readers[r := s.readers[r].(pc := RPollReady)])
    case GiveUp(r) => s.(readers := s.readers[r := s.readers[r].(pc := RIdle)])
    case ReaderNext(r) =>
      var (sh, rd) := ReaderAfter(s.sh, s.readers[r]);
      s.(sh := sh, readers := s.readers[r := rd])
    case Start(r) => s.(readers := s.readers[r := s.readers[r].(pc := RIdle, last := 0, delivered := [])])
    case Stop(r) => s.(readers := s.readers[r := s.readers[r].(pc := RStopping(0))])
  }

  // ---------------------------------------------------------------- reference bookkeeping

  lemma {:induction false} RingCountUpdate(ring: seq<Option<nat>>, i: nat, e: Option<nat>, x: nat)
    requires i < |ring|
    ensures Is(ring[i], x) <= RingCount(ring, x)
    ensures RingCount(ring[i := e], x) == RingCount(ring, x) - Is(ring[i], x) + Is(e, x)
  {
    if i == 0 {
      assert ring[i := e][1..] == ring[1..];
    } else {
      RingCountUpdate(ring[1..], i - 1, e, x);
      assert ring[i := e][1..] == ring[1..][i - 1 := e];
    }
  }

  lemma {:induction false} RingCountPositive(ring: seq<Option<nat>>, x: nat)
    ensures RingCount(ring, x) > 0 <==> Some(x) in ring
  {
    if ring == [] {
    } else {
      RingCountPositive(ring[1..], x);
      assert ring == [ring[0]] + ring[1..];
    }
  }

  lemma HeldNonNegative(r: Reader, x: nat)
    ensures Held(r, x) >= 0
  {
    if r.head < |r.ring| { RingCountUpdate(r.ring, r.head, None, x); }
  }

  lemma {:induction false} AllHeldUpdate(readers: seq<Reader>, r: nat, rd: Reader, x: nat)
    requires r < |readers|
    ensures Held(readers[r], x) <= AllHeld(readers, x)
    ensures AllHeld(readers[r := rd], x) == AllHeld(readers, x) - Held(readers[r], x) + Held(rd, x)
  {
    HeldNonNegative(readers[0], x);
    AllHeldNonNegative(readers[1..], x);
    if r == 0 {
      assert readers[r := rd][1..] == readers[1..];
    } else {
      AllHeldUpdate(readers[1..], r - 1, rd, x);
      assert readers[r := rd][1..] == readers[1..][r - 1 := rd];
    }
  }

  lemma {:induction false} AllHeldNonNegative(readers: seq<Reader>, x: nat)
    ensures AllHeld(readers, x) >= 0
  {
    if readers == [] {
    } else {
      HeldNonNegative(readers[0], x);
      AllHeldNonNegative(readers[1..], x);
    }
  }

  lemma {:induction false} NothingHeld(readers: seq<Reader>, x: nat)
    requires forall k :: 0 <= k < |readers| ==> Held(readers[k], x) == 0
    ensures AllHeld(readers, x) == 0
  {
    if readers == [] {
    } else {
      NothingHeld(readers[1..], x);
    }
  }

  // ---------------------------------------------------------------- the invariant holds in every run

  lemma InitInv(s: State)
    requires Init(s)
    ensures Inv(s)
  {
    forall x | 0 <= x < |s.sh.counts| ensures AllHeld(s.readers, x) == 0 {
      forall k | 0 <= k < |s.readers| ensures Held(s.readers[k], x) == 0 {
        RingCountPositive(s.readers[k].ring, x);
      }
      NothingHeld(s.readers, x);
    }
  }

  lemma PublishedSnoc(outcomes: seq<Outcome>, o: Outcome)
    ensures PublishedFrames(outcomes + [o])
         == PublishedFrames(outcomes) + (if o.Published? then [o.frame] else [])
  {
    assert (outcomes + [o])[..|outcomes|] == outcomes;
  }

  lemma WriterStepInv(s: State, e: Step)
    requires Inv(s) && Enabled(s, e)
    requires e.Render? || e.TryLock? || e.Paint? || e.TransformDone?
    ensures Inv(Do(s, e))
  {
    hide ReaderOk, AllHeld, PublishedFrames;
    if e.TryLock? { PublishedSnoc(s.outcomes, Dropped); }
  }

  /** A larger frame number in the header breaks nothing a consumer relies on. */
  lemma NewerFrameOk(r: Reader, n: nat, f: nat, f': nat)
    requires ReaderOk(r, n, f) && f <= f'
    ensures ReaderOk(r, n, f')
  {
    hide RingIsWindow, ReaderPcOk;
  }

  lemma WriterNextInv(s: State, pts: int)
    requires Inv(s) && Enabled(s, WriterNext(pts))
    ensures Inv(Do(s, WriterNext(pts)))
  {
    hide ReaderOk, AllHeld, PublishedFrames;
    if s.wpc.WFailed? {
      PublishedSnoc(s.outcomes, Failed);
    } else if s.wpc.WStoreFrame? {
      PublishedSnoc(s.outcomes, Published(s.nextFrame));
      forall k | 0 <= k < |s.readers| ensures ReaderOk(s.readers[k], |s.sh.counts|, s.nextFrame) {
        NewerFrameOk(s.readers[k], |s.sh.counts|, s.sh.frameNumber, s.nextFrame);
      }
    }
  }

  /** Writing the private ring advances the window by one entry. */
  lemma RingStoreWindow(r: Reader, n: nat, f: nat)
    requires ReaderOk(r, n, f) && r.pc.RRingStore?
    ensures RingIsWindow(r.(pc := RLoadTime, ring := r.ring[r.head := Some(r.pc.idx)],
                            head := (r.head + 1) % RELEASE_DELAY))
  {
    var r' := r.(pc := RLoadTime, ring := r.ring[r.head := Some(r.pc.idx)], head := (r.head + 1) % RELEASE_DELAY);
    forall i | 0 <= i < RELEASE_DELAY
      ensures RingAt(r', i)
           == if Stored(r') - RELEASE_DELAY + i < 0 then None else Some(r'.taken[Stored(r') - RELEASE_DELAY + i])
    {
      if i + 1 < RELEASE_DELAY { assert RingAt(r', i) == RingAt(r, i + 1); }
    }
  }

  /** A step that leaves ring, head and the stored part of `taken` alone keeps the window. */
  lemma SameRingWindow(r: Reader, r': Reader)
    requires |r.ring| == RELEASE_DELAY && 0 <= Stored(r) <= |r.taken| && RingIsWindow(r)
    requires r'.ring == r.ring && r'.head == r.head && Stored(r') == Stored(r)
    requires r.taken <= r'.taken
    ensures RingIsWindow(r')
  {
    forall i | 0 <= i < RELEASE_DELAY
      ensures RingAt(r', i)
           == if Stored(r') - RELEASE_DELAY + i < 0 then None else Some(r'.taken[Stored(r') - RELEASE_DELAY + i])
    {
      assert RingAt(r', i) == RingAt(r, i);
    }
  }

  lemma EmptyRingWindow(r: Reader)
    requires |r.ring| == RELEASE_DELAY && Stored(r) == 0
    requires forall j :: 0 <= j < RELEASE_DELAY ==> r.ring[j] == None
    ensures RingIsWindow(r)
  {
  }

  lemma ReaderAfterOk(sh: Shared, r: Reader)
    requires ReaderOk(r, |sh.counts|, sh.frameNumber) && sh.writeIdx < |sh.counts|
    ensures var (sh', r') := ReaderAfter(sh, r);
            && |sh'.counts| == |sh.counts|
            && sh' == sh.(counts := sh'.counts)
            && ReaderOk(r', |sh.counts|, sh.frameNumber)
  {
    hide RingIsWindow, RingAt;
    var (sh', r') := ReaderAfter(sh, r);
    if r.pc.RRingStore? {
      RingStoreWindow(r, |sh.counts|, sh.frameNumber);
    } else if !r.pc.RStopping? {
      SameRingWindow(r, r');
    } else if r'.pc.RStopped? {
      EmptyRingWindow(r');
    }
  }

  /** The counts move exactly as the consumer's own references do; a locked slot is left alone. */
  lemma ReaderAfterCounts(sh: Shared, r: Reader, x: nat, all: int)
    requires ReaderOk(r, |sh.counts|, sh.frameNumber) && sh.writeIdx < |sh.counts|
    requires x < |sh.counts| && Held(r, x) <= all
    requires sh.counts[x] == all || (sh.counts[x] == -1 && all == 0)
    ensures var (sh', r') := ReaderAfter(sh, r);
            && |sh'.counts| == |sh.counts|
            && sh'.counts[x] - sh.counts[x] == Held(r', x) - Held(r, x)
            && (sh.counts[x] == -1 ==> Held(r', x) == 0 && sh'.counts[x] == -1)
  {
    hide RingIsWindow, FramesOk, RingCount;
    HeldNonNegative(r, x);
    match r.pc
    case RRingStore(idx) => RingCountUpdate(r.ring, r.head, Some(idx), x);
    case RReturnOldest(idx) => RingCountUpdate(r.ring, r.head, None, x);
    case RStopping(i) => RingCountUpdate(r.ring, i, None, x);
    case _ =>
  }

  lemma ReaderNextInv(s: State, r: nat)
    requires Inv(s) && Enabled(s, ReaderNext(r))
    ensures Inv(Do(s, ReaderNext(r)))
  {
    var rd := s.readers[r];
    var (sh', rd') := ReaderAfter(s.sh, rd);
    ReaderAfterOk(s.sh, rd);
    forall x | 0 <= x < |s.sh.counts|
      ensures if Locks(s.wpc, x) then sh'.counts[x] == -1 && AllHeld(s.readers[r := rd'], x) == 0
              else sh'.counts[x] == AllHeld(s.readers[r := rd'], x)
    {
      AllHeldUpdate(s.readers, r, rd', x);
      ReaderAfterCounts(s.sh, rd, x, AllHeld(s.readers, x));
    }
  }

  /** Entering or leaving a call changes neither the references held nor the ring. */
  lemma ReaderCallOk(s: State, e: Step)
    requires Inv(s) && Enabled(s, e)
    requires e.Create? || e.GiveUp? || e.Start? || e.Stop?
    ensures ReaderOk(Do(s, e).readers[e.r], |s.sh.counts|, s.sh.frameNumber)
    ensures forall x :: Held(Do(s, e).readers[e.r], x) == Held(s.readers[e.r], x)
  {
    var rd := s.readers[e.r];
    var rd' := Do(s, e).readers[e.r];
    if !e.Stop? { SameRingWindow(rd, rd'); }
  }

  lemma ReaderCallInv(s: State, e: Step)
    requires Inv(s) && Enabled(s, e)
    requires e.Create? || e.GiveUp? || e.Start? || e.Stop?
    ensures Inv(Do(s, e))
  {
    ReaderCallOk(s, e);
    hide ReaderOk, Held;
    var rd' := Do(s, e).readers[e.r];
    forall x | 0 <= x < |s.sh.counts| ensures AllHeld(Do(s, e).readers, x) == AllHeld(s.readers, x) {
      AllHeldUpdate(s.readers, e.r, rd', x);
    }
  }

  /** Every atomic step of either side keeps the invariant. */
  lemma StepInv(s: State, e: Step)
    requires Inv(s) && Enabled(s, e)
    ensures Inv(Do(s, e))
  {
    match e
    case WriterNext(pts) => WriterNextInv(s, pts);
    case ReaderNext(r) => ReaderNextInv(s, r);
    case Create(_) => ReaderCallInv(s, e);
    case GiveUp(_) => ReaderCallInv(s, e);
    case Start(_) => ReaderCallInv(s, e);
    case Stop(_) => ReaderCallInv(s, e);
    case _ => WriterStepInv(s, e);
  }
}
