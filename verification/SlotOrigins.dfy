/** Where the slot of a delivery comes from: it is the index the header named while this create was
    fetching, and the producer had locked, filled and unlocked it in this run. */
module SlotOrigins {
  import opened SlotProtocol
  import opened SlotRuns

  // ---------------------------------------------------------------- the consumer's side

  /** Inside create, from the index load up to the compare-and-swap. */
  predicate Fetching(pc: ReaderPc) {
    pc.RLoadIdx? || pc.RLoadCount? || pc.RReloadIdx? || pc.RCas?
  }

  predicate FetchingIn(s: State, r: nat) {
    r < |s.readers| && Fetching(s.readers[r].pc)
  }

  /** The next access of consumer r is a load of the header's index. */
  predicate LoadsIndex(s: State, r: nat) {
    r < |s.readers| && (s.readers[r].pc.RLoadIdx? || s.readers[r].pc.RReloadIdx?)
  }

  /** State j is one in which the consumer loads the index x from the header, and it has not left the
      fetch up to state k. */
  ghost predicate FetchedFrom(ss: seq<State>, r: nat, j: nat, k: nat, x: nat) {
    && j <= k < |ss| && ss[j].sh.writeIdx == x && LoadsIndex(ss[j], r)
    && forall i :: j <= i <= k ==> FetchingIn(ss[i], r)
  }

  ghost predicate Fetched(ss: seq<State>, r: nat, k: nat, x: nat) {
    exists j: nat :: FetchedFrom(ss, r, j, k, x)
  }

  /** The slot a consumer works on: it loads the count of x, or is about to swap it. */
  predicate WorksOn(s: State, r: nat, x: nat) {
    && r < |s.readers|
    && match s.readers[r].pc
       case RLoadCount(idx) => idx == x
       case RCas(idx, _) => idx == x
       case _ => false
  }

  /** The step after state k takes a reference on x. */
  predicate Acquires(ss: seq<State>, r: nat, k: nat, x: nat) {
    && k + 1 < |ss| && r < |ss[k].readers| && r < |ss[k + 1].readers|
    && ss[k + 1].readers[r].taken == ss[k].readers[r].taken + [x]
  }

  lemma StepWorksOn(s: State, e: Step, r: nat, x: nat)
    requires Inv(s) && Enabled(s, e) && WorksOn(Do(s, e), r, x)
    ensures WorksOn(s, r, x) || (LoadsIndex(s, r) && s.sh.writeIdx == x)
  {
    StepKeepsSizes(s, e);
    hide Inv, ReaderOk, AllHeld;
  }

  lemma NextWorksOn(s: State, s': State, r: nat, x: nat)
    requires Next(s, s') && WorksOn(s', r, x)
    ensures WorksOn(s, r, x) || (LoadsIndex(s, r) && s.sh.writeIdx == x)
  {
    hide Inv, WorksOn, LoadsIndex, Do, Enabled;
    var e :| Enabled(s, e) && s' == Do(s, e);
    StepWorksOn(s, e, r, x);
  }

  /** In every run a consumer works only on a slot that the header named during this fetch. */
  lemma {:induction false} WorkedOnWasNamed(ss: seq<State>, r: nat, k: nat, x: nat)
    requires Run(ss) && Init(ss[0]) && k < |ss| && WorksOn(ss[k], r, x)
    ensures Fetched(ss, r, k, x)
  {
    hide Inv, Next;
    if k == 0 {
      assert false;
    } else {
      assert Next(ss[k - 1], ss[k]);
      NextWorksOn(ss[k - 1], ss[k], r, x);
      if WorksOn(ss[k - 1], r, x) {
        WorkedOnWasNamed(ss, r, k - 1, x);
        var j: nat :| FetchedFrom(ss, r, j, k - 1, x);
        assert FetchingIn(ss[k], r);
        assert FetchedFrom(ss, r, j, k, x);
      } else {
        assert FetchedFrom(ss, r, k - 1, k, x);
      }
    }
  }

  lemma StepAcquires(s: State, e: Step, r: nat, x: nat)
    requires Inv(s) && Enabled(s, e) && r < |s.readers| && r < |Do(s, e).readers|
    requires Do(s, e).readers[r].taken == s.readers[r].taken + [x]
    ensures s.readers[r].pc.RCas? && s.readers[r].pc.idx == x
  {
    StepKeepsSizes(s, e);
    hide Inv, ReaderOk, AllHeld;
    var t, t' := s.readers[r].taken, Do(s, e).readers[r].taken;
    assert |t'| == |t| + 1 && t'[|t|] == x;
  }

  /** In every run, what a consumer takes a reference on is the index the header named in some state of
      this fetch. */
  lemma AcquiredWasNamed(ss: seq<State>, r: nat, k: nat, x: nat)
    requires Run(ss) && Init(ss[0]) && Acquires(ss, r, k, x)
    ensures Fetched(ss, r, k, x)
  {
    hide Inv, Do, Enabled;
    assert Next(ss[k], ss[k + 1]);
    var e :| Enabled(ss[k], e) && ss[k + 1] == Do(ss[k], e);
    StepAcquires(ss[k], e, r, x);
    WorkedOnWasNamed(ss, r, k, x);
  }

  // ---------------------------------------------------------------- the producer's side

  /** The producer locked slot x at step a and has been copying into it up to state b. */
  ghost predicate CopyingSince(ss: seq<State>, a: nat, b: nat, x: nat) {
    && a < b < |ss| && ss[a].wpc.WScan?
    && forall i :: a < i <= b ==> ss[i].wpc == WCopy(x)
  }

  /** The transform into x succeeded at step b, and the slot has not been unlocked up to state c. */
  ghost predicate FilledSince(ss: seq<State>, b: nat, c: nat, x: nat) {
    && b < c < |ss| && (exists a: nat :: CopyingSince(ss, a, b, x))
    && forall i :: b < i <= c ==> ss[i].wpc == WCopied(x)
  }

  /** Before state k the producer locked x, filled it by a successful transform and unlocked it. */
  ghost predicate FilledBefore(ss: seq<State>, k: nat, x: nat) {
    exists b: nat, c: nat :: FilledSince(ss, b, c, x) && c < k < |ss| && ss[c + 1].wpc == WStoreIdx(x)
  }

  lemma StaysFilled(ss: seq<State>, j: nat, k: nat, x: nat)
    requires FilledBefore(ss, j, x) && j <= k < |ss|
    ensures FilledBefore(ss, k, x)
  {
  }

  /** Where the producer's current position comes from. */
  ghost predicate Accounted(ss: seq<State>, k: nat)
    requires k < |ss|
  {
    match ss[k].wpc
    case WCopy(x) => exists a: nat :: CopyingSince(ss, a, k, x)
    case WCopied(x) => exists b: nat :: FilledSince(ss, b, k, x)
    case WStoreIdx(x) => FilledBefore(ss, k, x)
    case _ => true
  }

  /** Once a frame is out, and already when its index is stored, the header names a filled slot. */
  ghost predicate NamesFilled(ss: seq<State>, k: nat)
    requires k < |ss|
  {
    ss[k].nextFrame > 0 || ss[k].wpc.WStoreTime? || ss[k].wpc.WStoreFrame? ==> FilledBefore(ss, k, ss[k].sh.writeIdx)
  }

  /** What one step may do to the producer and to the index. */
  predicate WriterMoves(s: State, s': State) {
    && (s'.wpc.WCopy? ==> s.wpc == s'.wpc || s.wpc.WScan?)
    && (s'.wpc.WCopied? ==> s.wpc == s'.wpc || s.wpc == WCopy(s'.wpc.t))
    && (s'.wpc.WStoreIdx? ==> s.wpc == s'.wpc || s.wpc == WCopied(s'.wpc.t))
    && (s'.wpc.WStoreTime? ==> s.wpc == s'.wpc || s.wpc == WStoreIdx(s'.sh.writeIdx))
    && (s'.wpc.WStoreFrame? ==> s.wpc == s'.wpc || s.wpc.WStoreTime?)
    && (s'.sh.writeIdx == s.sh.writeIdx || s.wpc == WStoreIdx(s'.sh.writeIdx))
    && (s'.nextFrame == s.nextFrame || s.wpc.WStoreFrame?)
  }

  lemma StepWriterMoves(s: State, e: Step)
    requires Inv(s) && Enabled(s, e)
    ensures WriterMoves(s, Do(s, e))
  {
    if e.ReaderNext? { ReaderAfterOk(s.sh, s.readers[e.r]); }
    hide Inv, ReaderOk, AllHeld, ReaderAfter;
  }

  lemma NextWriterMoves(s: State, s': State)
    requires Next(s, s')
    ensures WriterMoves(s, s')
  {
    hide Inv, WriterMoves, Do, Enabled;
    var e :| Enabled(s, e) && s' == Do(s, e);
    StepWriterMoves(s, e);
  }

  lemma AccountedNext(ss: seq<State>, k: nat)
    requires k + 1 < |ss| && Accounted(ss, k) && NamesFilled(ss, k) && WriterMoves(ss[k], ss[k + 1])
    ensures Accounted(ss, k + 1)
  {
    var s, s' := ss[k], ss[k + 1];
    match s'.wpc
    case WCopy(x) =>
      if s.wpc == s'.wpc {
        var a: nat :| CopyingSince(ss, a, k, x);
        assert CopyingSince(ss, a, k + 1, x);
      } else {
        assert CopyingSince(ss, k, k + 1, x);
      }
    case WCopied(x) =>
      if s.wpc == s'.wpc {
        var b: nat :| FilledSince(ss, b, k, x);
        assert FilledSince(ss, b, k + 1, x);
      } else {
        assert FilledSince(ss, k, k + 1, x);
      }
    case WStoreIdx(x) =>
      if s.wpc == s'.wpc {
        StaysFilled(ss, k, k + 1, x);
      } else {
        var b: nat :| FilledSince(ss, b, k, x);
        assert FilledBefore(ss, k + 1, x);
      }
    case _ =>
  }

  lemma NamesFilledNext(ss: seq<State>, k: nat)
    requires k + 1 < |ss| && Accounted(ss, k) && NamesFilled(ss, k) && WriterMoves(ss[k], ss[k + 1])
    ensures NamesFilled(ss, k + 1)
  {
    hide FilledBefore, FilledSince, CopyingSince;
    var s, s' := ss[k], ss[k + 1];
    if s'.nextFrame > 0 || s'.wpc.WStoreTime? || s'.wpc.WStoreFrame? {
      assert FilledBefore(ss, k, s'.sh.writeIdx);
      StaysFilled(ss, k, k + 1, s'.sh.writeIdx);
    }
  }

  lemma {:induction false} NamesFilledInEveryRun(ss: seq<State>, k: nat)
    requires Run(ss) && Init(ss[0]) && k < |ss|
    ensures Accounted(ss, k) && NamesFilled(ss, k)
  {
    hide Inv, Next, WriterMoves, FilledBefore, FilledSince, CopyingSince;
    if k == 0 {
    } else {
      NamesFilledInEveryRun(ss, k - 1);
      assert Next(ss[k - 1], ss[k]);
      NextWriterMoves(ss[k - 1], ss[k]);
      AccountedNext(ss, k - 1);
      NamesFilledNext(ss, k - 1);
    }
  }

  /** In every run, once a frame number is out the published index is a slot that the producer locked,
      filled by a successful transform and unlocked in this run. */
  lemma IndexIsFilled(ss: seq<State>, k: nat)
    requires Run(ss) && Init(ss[0]) && k < |ss| && ss[k].nextFrame > 0
    ensures FilledBefore(ss, k, ss[k].sh.writeIdx)
  {
    hide Run, Init, FilledBefore, Accounted;
    NamesFilledInEveryRun(ss, k);
  }

  // ---------------------------------------------------------------- deliveries

  /** The slot taken at step k was named by the header in a state of this fetch, from `lo` on, and had
      been filled by then. */
  ghost predicate TakesFilled(ss: seq<State>, r: nat, lo: nat, k: nat, x: nat) {
    exists j: nat :: lo <= j && FetchedFrom(ss, r, j, k, x) && FilledBefore(ss, j, x)
  }

  lemma FetchingSeesFrame(s: State, r: nat)
    requires Inv(s) && FetchingIn(s, r)
    ensures s.nextFrame > 0
  {
    assert ReaderOk(s.readers[r], |s.sh.counts|, s.sh.frameNumber);
    hide RingIsWindow, ReaderPcOk, AllHeld, PublishedFrames;
  }

  /** In every run, what a consumer takes a reference on was filled by a successful transform and then
      named by the header during this fetch. */
  lemma AcquiredWasFilled(ss: seq<State>, r: nat, k: nat, x: nat)
    requires Run(ss) && Init(ss[0]) && Acquires(ss, r, k, x)
    ensures TakesFilled(ss, r, 0, k, x)
  {
    hide Inv, FilledBefore, Next, Acquires;
    AcquiredWasNamed(ss, r, k, x);
    var j: nat :| FetchedFrom(ss, r, j, k, x);
    InitInv(ss[0]);
    RunInv(ss, j);
    assert FetchingIn(ss[j], r);
    FetchingSeesFrame(ss[j], r);
    hide Run, Init;
    IndexIsFilled(ss, j);
  }

  /** A consumer outside create at state e < k can only have started the fetch after e. */
  lemma FetchedSince(ss: seq<State>, r: nat, e: nat, k: nat, x: nat)
    requires TakesFilled(ss, r, 0, k, x) && e <= k && !FetchingIn(ss[e], r)
    ensures TakesFilled(ss, r, e + 1, k, x)
  {
    hide FilledBefore;
    var j: nat :| FetchedFrom(ss, r, j, k, x) && FilledBefore(ss, j, x);
    assert j > e;
  }

  lemma FilledInLonger(ss: seq<State>, tt: seq<State>, k: nat, x: nat)
    requires FilledBefore(ss, k, x) && ss <= tt
    ensures FilledBefore(tt, k, x)
  {
    var b: nat, c: nat :| FilledSince(ss, b, c, x) && c < k < |ss| && ss[c + 1].wpc == WStoreIdx(x);
    var a: nat :| CopyingSince(ss, a, b, x);
    assert CopyingSince(tt, a, b, x);
    assert FilledSince(tt, b, c, x);
  }

  lemma TakesInLonger(ss: seq<State>, tt: seq<State>, r: nat, lo: nat, k: nat, x: nat)
    requires TakesFilled(ss, r, lo, k, x) && ss <= tt
    ensures TakesFilled(tt, r, lo, k, x)
  {
    hide FetchingIn, LoadsIndex, FilledBefore;
    var j: nat :| lo <= j && FetchedFrom(ss, r, j, k, x) && FilledBefore(ss, j, x);
    FilledInLonger(ss, tt, j, x);
    assert FetchedFrom(tt, r, j, k, x);
  }

  /** After state lo the consumer took x, which had been filled and was named by the header meanwhile. */
  ghost predicate DeliversFilled(ss: seq<State>, r: nat, lo: nat, x: nat) {
    exists k: nat :: Acquires(ss, r, k, x) && TakesFilled(ss, r, lo, k, x)
  }

  /** The last step of the run took x. */
  predicate JustTook(ss: seq<State>, r: nat, x: nat) {
    |ss| >= 2 && Acquires(ss, r, |ss| - 2, x)
  }

  /** A create that began after state e, and has just taken x, took a filled slot. */
  lemma JustTookFilled(ss: seq<State>, r: nat, e: nat, x: nat)
    requires Run(ss) && Init(ss[0]) && JustTook(ss, r, x) && e < |ss| - 1 && !FetchingIn(ss[e], r)
    ensures DeliversFilled(ss, r, e + 1, x)
  {
    hide Run, Init, TakesFilled, FetchingIn, Acquires;
    AcquiredWasFilled(ss, r, |ss| - 2, x);
    FetchedSince(ss, r, e, |ss| - 2, x);
  }

  lemma DeliversInLonger(ss: seq<State>, tt: seq<State>, r: nat, lo: nat, x: nat)
    requires DeliversFilled(ss, r, lo, x) && ss <= tt
    ensures DeliversFilled(tt, r, lo, x)
  {
    hide TakesFilled;
    var k: nat :| Acquires(ss, r, k, x) && TakesFilled(ss, r, lo, k, x);
    TakesInLonger(ss, tt, r, lo, k, x);
    assert Acquires(tt, r, k, x);
  }

  /** Entry p of the history was taken at step i. */
  predicate TakenAt(ss: seq<State>, r: nat, i: nat, p: nat, x: nat) {
    Acquires(ss, r, i, x) && |ss[i].readers[r].taken| == p
  }

  lemma StepKeepsTaken(s: State, e: Step, r: nat, p: nat)
    requires Inv(s) && Enabled(s, e) && r < |s.readers| && r < |Do(s, e).readers|
    requires p < |Do(s, e).readers[r].taken|
    ensures var t, t' := s.readers[r].taken, Do(s, e).readers[r].taken;
            (p < |t| && t'[p] == t[p]) || (p == |t| && t' == t + [t'[p]])
  {
    StepKeepsSizes(s, e);
    hide Inv, ReaderOk, AllHeld;
  }

  /** In every run, every slot in a consumer's history was taken by some step of that consumer, when it
      had been filled by a successful transform and then named by the header. */
  lemma {:induction false} TakenWasFilled(ss: seq<State>, r: nat, k: nat, p: nat)
    requires Run(ss) && Init(ss[0]) && k < |ss| && r < |ss[k].readers| && p < |ss[k].readers[r].taken|
    ensures exists i: nat :: i < k && TakenAt(ss, r, i, p, ss[k].readers[r].taken[p])
                        && TakesFilled(ss, r, 0, i, ss[k].readers[r].taken[p])
  {
    hide Inv, TakesFilled, Do, Enabled;
    SameReaders(ss, k);
    if k == 0 {
      assert false;
    } else {
      SameReaders(ss, k - 1);
      assert Next(ss[k - 1], ss[k]);
      var e :| Enabled(ss[k - 1], e) && ss[k] == Do(ss[k - 1], e);
      StepKeepsTaken(ss[k - 1], e, r, p);
      if p < |ss[k - 1].readers[r].taken| {
        TakenWasFilled(ss, r, k - 1, p);
      } else {
        AcquiredWasFilled(ss, r, k - 1, ss[k].readers[r].taken[p]);
      }
    }
  }
}
