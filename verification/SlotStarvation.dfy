/** The documented minimum pool size is tight in one direction only: with MIN_POOL_SIZE
    slots and one running consumer there is a run in which the producer drops a frame,
    because a consumer inside create briefly holds RELEASE_DELAY + 1 slots. */
module SlotStarvation {
  import opened SlotProtocol
  import opened SlotRuns

  /** Some run leads from s, where the invariant holds, to t. */
  ghost predicate Reaches(s: State, t: State) {
    exists ss :: Run(ss) && Inv(s) && ss[0] == s && ss[|ss| - 1] == t
  }

  lemma ReachesSelf(s: State)
    requires Inv(s)
    ensures Reaches(s, s)
  {
    assert Run([s]);
  }

  lemma ReachesInv(s: State, t: State)
    requires Reaches(s, t)
    ensures Inv(t)
  {
    var ss :| Run(ss) && Inv(s) && ss[0] == s && ss[|ss| - 1] == t;
    RunInv(ss, |ss| - 1);
  }

  lemma ReachesNext(s: State, t: State, u: State)
    requires Reaches(s, t) && Next(t, u)
    ensures Reaches(s, u)
  {
    var ss :| Run(ss) && Inv(s) && ss[0] == s && ss[|ss| - 1] == t;
    var ss' := ss + [u];
    forall i | 0 <= i < |ss'| - 1 ensures Next(ss'[i], ss'[i + 1]) {
      if i < |ss| - 1 { assert Next(ss[i], ss[i + 1]); }
    }
    assert Run(ss');
  }

  lemma ReachesStep(s: State, t: State, e: Step)
    requires Reaches(s, t) && Enabled(t, e)
    ensures Inv(t) && Reaches(s, Do(t, e))
  {
    ReachesInv(s, t);
    ReachesNext(s, t, Do(t, e));
  }

  /** The scan passes over busy slots until attempt m, where it finds one free. */
  lemma {:induction false} ScanPasses(s: State, t: State, m: nat) returns (u: State)
    requires Reaches(s, t) && t.wpc.WScan? && t.wpc.i <= m < |t.sh.counts|
    requires forall j :: t.wpc.i <= j < m ==> t.sh.counts[SlotAt(|t.sh.counts|, j)] != 0
    ensures Reaches(s, u) && u == t.(wpc := WScan(m))
    decreases m - t.wpc.i
  {
    hide Reaches;
    if t.wpc.i == m {
      u := t;
    } else {
      ReachesStep(s, t, TryLock);
      u := ScanPasses(s, t.(wpc := WScan(t.wpc.i + 1)), m);
    }
  }

  /** The slot probed at attempt m is free: it is locked, filled and unlocked again. */
  lemma LocksAndFills(s: State, t: State) returns (u: State)
    requires Reaches(s, t) && t.wpc.WScan? && 0 < |t.sh.counts|
    requires t.sh.counts[SlotAt(|t.sh.counts|, t.wpc.i)] == 0
    ensures Reaches(s, u)
    ensures u == t.(wpc := WStoreIdx(SlotAt(|t.sh.counts|, t.wpc.i)))
  {
    hide Reaches, Inv;
    ReachesStep(s, t, TryLock);
    var t1 := Do(t, TryLock);
    ReachesStep(s, t1, TransformDone(true));
    var t2 := Do(t1, TransformDone(true));
    ReachesStep(s, t2, WriterNext(0));
    u := Do(t2, WriterNext(0));
    assert u.sh.counts == t.sh.counts;
  }

  lemma StoresIndexAndTime(s: State, t: State) returns (u: State)
    requires Reaches(s, t) && t.wpc.WStoreIdx?
    ensures Reaches(s, u)
    ensures u == t.(wpc := WStoreFrame, sh := t.sh.(writeIdx := t.wpc.t, timestamp := 0))
  {
    hide Reaches, Inv;
    ReachesStep(s, t, WriterNext(0));
    var t1 := Do(t, WriterNext(0));
    ReachesStep(s, t1, WriterNext(0));
    u := Do(t1, WriterNext(0));
  }

  lemma StoresFrameAndReady(s: State, t: State) returns (u: State)
    requires Reaches(s, t) && t.wpc.WStoreFrame?
    ensures Reaches(s, u) && u.wpc == WIdle && u.readers == t.readers
    ensures u.sh == t.sh.(frameNumber := t.nextFrame, ready := true) && u.nextFrame == t.nextFrame + 1
  {
    hide Reaches, Inv;
    ReachesStep(s, t, WriterNext(0));
    var t1 := Do(t, WriterNext(0));
    ReachesStep(s, t1, WriterNext(0));
    u := Do(t1, WriterNext(0));
  }

  /** A frame is published into the first free slot of the scan. */
  lemma Publishes(s: State, t: State, m: nat) returns (u: State)
    requires Reaches(s, t) && t.wpc == WIdle && m < |t.sh.counts|
    requires forall j :: 0 <= j < m ==> t.sh.counts[SlotAt(|t.sh.counts|, j)] != 0
    requires t.sh.counts[SlotAt(|t.sh.counts|, m)] == 0
    ensures Reaches(s, u) && u.wpc == WIdle && u.readers == t.readers
    ensures u.sh.counts == t.sh.counts && u.sh.writeIdx == SlotAt(|t.sh.counts|, m)
    ensures u.sh.ready && u.sh.frameNumber == t.nextFrame && u.nextFrame == t.nextFrame + 1
  {
    ReachesStep(s, t, Render);
    var t1 := ScanPasses(s, t.(wpc := WScan(0)), m);
    var t2 := LocksAndFills(s, t1);
    var t3 := StoresIndexAndTime(s, t2);
    u := StoresFrameAndReady(s, t3);
  }

  /** The next access of the only consumer. */
  lemma ReaderMoves(s: State, t: State) returns (u: State)
    requires Reaches(s, t) && |t.readers| == 1 && !t.readers[0].pc.RIdle? && !t.readers[0].pc.RStopped?
    ensures ReaderOk(t.readers[0], |t.sh.counts|, t.sh.frameNumber) && t.sh.writeIdx < |t.sh.counts|
    ensures Reaches(s, u) && |u.readers| == 1
    ensures u == t.(sh := ReaderAfter(t.sh, t.readers[0]).0, readers := [ReaderAfter(t.sh, t.readers[0]).1])
  {
    hide Reaches, ReaderAfter, ReaderOk;
    ReachesStep(s, t, ReaderNext(0));
    u := Do(t, ReaderNext(0));
  }

  lemma LeavesPollLoop(s: State, t: State) returns (u: State)
    requires Reaches(s, t) && |t.readers| == 1 && t.sh.ready
    requires t.readers[0].pc == RIdle && t.readers[0].last != t.sh.frameNumber
    ensures Reaches(s, u) && u == t.(readers := [t.readers[0].(pc := RLoadIdx)])
  {
    hide Reaches, Inv, ReaderOk;
    ReachesStep(s, t, Create(0));
    var t1 := ReaderMoves(s, Do(t, Create(0)));
    u := ReaderMoves(s, t1);
  }

  /** The only consumer takes a reference on the slot just published. */
  lemma Takes(s: State, t: State) returns (u: State)
    requires Reaches(s, t) && |t.readers| == 1 && t.readers[0].pc == RLoadIdx
    requires t.sh.writeIdx < |t.sh.counts| && t.sh.counts[t.sh.writeIdx] >= 0
    ensures Reaches(s, u)
    ensures var w := t.sh.writeIdx;
            u == t.(sh := t.sh.(counts := t.sh.counts[w := t.sh.counts[w] + 1]),
                    readers := [t.readers[0].(pc := RReturnOldest(w), taken := t.readers[0].taken + [w])])
  {
    hide Reaches, Inv, ReaderOk;
    var t1 := ReaderMoves(s, t);
    var t2 := ReaderMoves(s, t1);
    u := ReaderMoves(s, t2);
  }

  lemma NothingToReturn(s: State, t: State)
    requires Reaches(s, t) && |t.readers| == 1
    requires t.readers[0].pc.RReturnOldest? && |t.readers[0].taken| <= RELEASE_DELAY
    ensures var r := t.readers[0]; r.head < |r.ring| && r.ring[r.head].None?
  {
    hide Reaches;
    ReachesInv(s, t);
    ReturnedIsTwelfthBefore(t.readers[0], |t.sh.counts|, t.sh.frameNumber);
  }

  lemma ReturnsNothing(s: State, t: State) returns (u: State)
    requires Reaches(s, t) && |t.readers| == 1
    requires t.readers[0].pc.RReturnOldest? && |t.readers[0].taken| <= RELEASE_DELAY
    ensures Reaches(s, u) && u.sh == t.sh && u.wpc == t.wpc && u.nextFrame == t.nextFrame
    ensures |u.readers| == 1 && u.readers[0].pc.RRingStore? && u.readers[0].taken == t.readers[0].taken
  {
    NothingToReturn(s, t);
    hide Reaches, ReaderOk;
    u := ReaderMoves(s, t);
  }

  lemma StoresInRing(s: State, t: State) returns (u: State)
    requires Reaches(s, t) && |t.readers| == 1 && t.readers[0].pc.RRingStore?
    ensures Reaches(s, u) && u.sh == t.sh && u.wpc == t.wpc && u.nextFrame == t.nextFrame
    ensures |u.readers| == 1 && u.readers[0].pc == RLoadTime && u.readers[0].taken == t.readers[0].taken
  {
    hide Reaches, ReaderOk;
    u := ReaderMoves(s, t);
  }

  /** The consumer finishes a create that has nothing to give back. */
  lemma Delivers(s: State, t: State) returns (u: State)
    requires Reaches(s, t) && |t.readers| == 1
    requires t.readers[0].pc.RReturnOldest? && |t.readers[0].taken| <= RELEASE_DELAY
    ensures Reaches(s, u) && u.sh == t.sh && u.wpc == t.wpc && u.nextFrame == t.nextFrame
    ensures |u.readers| == 1 && u.readers[0].pc == RIdle && u.readers[0].last == t.sh.frameNumber
    ensures u.readers[0].taken == t.readers[0].taken
  {
    hide Reaches, Inv, ReaderOk;
    var t1 := ReturnsNothing(s, t);
    var t2 := StoresInRing(s, t1);
    var t3 := ReaderMoves(s, t2);
    u := ReaderMoves(s, t3);
  }

  /** Both sides idle; the consumer holds exactly slots 1 to k. */
  predicate Filled(s: State, k: nat) {
    && |s.sh.counts| == MIN_POOL_SIZE && s.wpc == WIdle && |s.readers| == 1
    && s.readers[0].pc == RIdle && |s.readers[0].taken| == k <= RELEASE_DELAY
    && s.readers[0].last < s.nextFrame && s.nextFrame > 0
    && forall x :: 0 <= x < MIN_POOL_SIZE ==> (s.sh.counts[x] == 0 <==> !(1 <= x <= k))
  }

  lemma PublishAndTake(s: State, t: State, k: nat) returns (u: State)
    requires Reaches(s, t) && Filled(t, k)
    ensures Reaches(s, u) && u.wpc == WIdle && |u.readers| == 1
    ensures u.readers[0].pc.RReturnOldest? && |u.readers[0].taken| == k + 1
    ensures u.sh.frameNumber + 1 == u.nextFrame
    ensures |u.sh.counts| == MIN_POOL_SIZE
    ensures forall x :: 0 <= x < MIN_POOL_SIZE ==>
              (u.sh.counts[x] == 0 <==> !(1 <= x <= k || x == SlotAt(MIN_POOL_SIZE, k)))
  {
    hide Reaches;
    assert forall j :: 0 <= j < k ==> SlotAt(MIN_POOL_SIZE, j) == j + 1;
    assert SlotAt(MIN_POOL_SIZE, k) == if k < RELEASE_DELAY then k + 1 else 0;
    var t1 := Publishes(s, t, k);
    var t2 := LeavesPollLoop(s, t1);
    u := Takes(s, t2);
  }

  lemma {:induction false} FillsUpTo(s: State, t: State, k: nat) returns (u: State)
    requires Reaches(s, t) && Filled(t, 0) && k <= RELEASE_DELAY
    ensures Reaches(s, u) && Filled(u, k)
  {
    hide Reaches;
    if k == 0 {
      u := t;
    } else {
      var t1 := FillsUpTo(s, t, k - 1);
      var t2 := PublishAndTake(s, t1, k - 1);
      u := Delivers(s, t2);
      assert SlotAt(MIN_POOL_SIZE, k - 1) == k;
    }
  }

  /** From the initial state of a minimum-size pool with one consumer, some run ends in
      a dropped frame while that consumer is inside create. */
  lemma MinimumPoolCanDrop(s: State) returns (u: State)
    requires Init(s) && |s.sh.counts| == MIN_POOL_SIZE && |s.readers| == 1
    ensures Reaches(s, u) && |u.readers| == 1 && u.readers[0].pc.RReturnOldest?
    ensures |u.outcomes| > 0 && u.outcomes[|u.outcomes| - 1] == Dropped
  {
    InitInv(s);
    ReachesSelf(s);
    hide Reaches, Inv;
    ReachesStep(s, s, Start(0));
    var t0 := Publishes(s, Do(s, Start(0)), 0);
    var t1 := FillsUpTo(s, t0, RELEASE_DELAY);
    var t2 := PublishAndTake(s, t1, RELEASE_DELAY);
    assert forall x :: 0 <= x < MIN_POOL_SIZE ==> t2.sh.counts[x] != 0;
    ReachesStep(s, t2, Render);
    var t3 := ScanPasses(s, t2.(wpc := WScan(0)), MIN_POOL_SIZE - 1);
    ReachesStep(s, t3, TryLock);
    u := Do(t3, TryLock);
  }
}
