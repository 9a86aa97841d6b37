/** The tracker's memory: the ring of device buffers and the object-pointer ring of
    samurai_tracker.cpp. Engine outputs are inputs of the model. */
module MemoryRing {
  type Feature = seq<real>

  /** kMask - 1 ring slots beside the seed, and kPtr - 1 pointers beside the seed's. */
  const SLOTS: nat := 6
  const POINTERS: nat := 15

  // ---------------------------------------------------------------- specification

  function Size(cap: nat, m: nat): nat {
    if m < cap then m else cap
  }

  /** The last `cap` values, oldest first. */
  function Window<T>(xs: seq<T>, cap: nat): (r: seq<T>)
    ensures |r| == Size(cap, |xs|)
  {
    xs[|xs| - Size(cap, |xs|)..]
  }

  /** What a consumer of `cap` slots reads: slot s takes the value `cap - 1 - s` from the newest,
      or the seed when there are not that many. */
  function SlotReads<T>(xs: seq<T>, seed: T, cap: nat): (r: seq<T>)
    ensures |r| == cap
    ensures forall s :: 0 <= s < cap ==> r[s] == if cap - 1 - s < |xs| then xs[|xs| - cap + s] else seed
  {
    seq(cap, s requires 0 <= s < cap => if cap - 1 - s < |xs| then xs[|xs| - cap + s] else seed)
  }

  function Repeat<T>(x: T, n: nat): (r: seq<T>)
    ensures |r| == n && forall i :: 0 <= i < n ==> r[i] == x
  {
    seq(n, _ => x)
  }

  /** Oldest to newest, padded with the seed in front. */
  lemma SlotsArePaddedWindow<T>(xs: seq<T>, seed: T, cap: nat)
    ensures SlotReads(xs, seed, cap) == Repeat(seed, cap - Size(cap, |xs|)) + Window(xs, cap)
  {
  }

  /** push_back, and erase of the front when there are more than `cap`. */
  function Pushed<T>(xs: seq<T>, x: T, cap: nat): seq<T>
    requires cap > 0
  {
    if |xs| + 1 > cap then xs[1..] + [x] else xs + [x]
  }

  /** Storing one more value: a full window drops its oldest. */
  lemma WindowSlides<T>(xs: seq<T>, x: T, cap: nat)
    requires cap > 0
    ensures Window(xs + [x], cap) == Pushed(Window(xs, cap), x, cap)
  {
  }

  function Reverse<T>(xs: seq<T>): (r: seq<T>)
    ensures |r| == |xs| && forall i :: 0 <= i < |xs| ==> r[i] == xs[|xs| - 1 - i]
  {
    seq(|xs|, i requires 0 <= i < |xs| => xs[|xs| - 1 - i])
  }

  // ---------------------------------------------------------------- the ring

  /** Device buffers by number: 0 to 5 are the ring's, 6 holds the seed. */
  const COND: nat := 6

  /** The ring buffer that feature number n was stored in. */
  function BufferOf(n: nat): nat {
    n % SLOTS
  }

  /** Ring entry j is the buffer of one of the last features, and that buffer still holds it. */
  predicate EntryOk(device: seq<Feature>, ring: seq<nat>, features: seq<Feature>, j: nat)
    requires |device| == SLOTS + 1 && j < |ring| <= |features|
  {
    var n := |features| - |ring| + j;
    ring[j] == BufferOf(n) && device[ring[j]] == features[n]
  }

  /** The ring names the last min(6, m) features, oldest first. */
  predicate RingOk(device: seq<Feature>, ring: seq<nat>, write: nat, features: seq<Feature>) {
    && |device| == SLOTS + 1
    && write == BufferOf(|features|)
    && |ring| == Size(SLOTS, |features|)
    && forall j :: 0 <= j < |ring| ==> EntryOk(device, ring, features, j)
  }

  /** Its entries are different buffers, none of them the seed's. */
  lemma EntriesDiffer(device: seq<Feature>, ring: seq<nat>, write: nat, features: seq<Feature>, i: nat, j: nat)
    requires RingOk(device, ring, write, features) && i < j < |ring|
    ensures ring[i] != ring[j] && ring[i] < COND
  {
    assert EntryOk(device, ring, features, i) && EntryOk(device, ring, features, j);
  }

  /** The buffer about to be written is the oldest entry's when the ring is full, and otherwise not
      in the ring at all. */
  lemma NextBuffer(device: seq<Feature>, ring: seq<nat>, write: nat, features: seq<Feature>)
    requires RingOk(device, ring, write, features)
    ensures |ring| == SLOTS ==> write == ring[0]
    ensures forall j :: 0 <= j < |ring| && (|ring| < SLOTS || j > 0) ==> ring[j] != write
  {
    forall j | 0 <= j < |ring| && (|ring| < SLOTS || j > 0) ensures ring[j] != write {
      assert EntryOk(device, ring, features, j);
    }
    if |ring| == SLOTS {
      assert EntryOk(device, ring, features, 0);
    }
  }

  /** Contents of the ring's buffers, in ring order. */
  function Named(device: seq<Feature>, ring: seq<nat>): (r: seq<Feature>)
    requires forall j :: 0 <= j < |ring| ==> ring[j] < |device|
    ensures |r| == |ring| && forall j :: 0 <= j < |r| ==> r[j] == device[ring[j]]
  {
    seq(|ring|, j requires 0 <= j < |ring| => device[ring[j]])
  }

  /** The ring refines the window of the last six features. */
  lemma RingIsWindow(device: seq<Feature>, ring: seq<nat>, write: nat, features: seq<Feature>)
    requires RingOk(device, ring, write, features)
    ensures forall j :: 0 <= j < |ring| ==> ring[j] < |device|
    ensures Named(device, ring) == Window(features, SLOTS)
  {
    forall j | 0 <= j < |ring| ensures ring[j] < |device| && device[ring[j]] == Window(features, SLOTS)[j] {
      assert EntryOk(device, ring, features, j);
    }
  }

  /** Overwriting the next buffer and moving the ring keeps the refinement. */
  lemma RingStep(device: seq<Feature>, ring: seq<nat>, write: nat, features: seq<Feature>, x: Feature)
    requires RingOk(device, ring, write, features)
    ensures write < SLOTS
    ensures RingOk(device[write := x], Pushed(ring, write, SLOTS), (write + 1) % SLOTS, features + [x])
  {
    NextBuffer(device, ring, write, features);
    var d, r, fs := device[write := x], Pushed(ring, write, SLOTS), features + [x];
    forall j | 0 <= j < |r| ensures EntryOk(d, r, fs, j) {
      if j < |r| - 1 {
        assert EntryOk(device, ring, features, j + |ring| + 1 - |r|);
      }
    }
  }

  lemma EmptyOk(device: seq<Feature>)
    requires |device| == SLOTS + 1
    ensures RingOk(device, [], 0, []) && Window<Feature>([], POINTERS) == []
  {
  }

  class Memory {
    const device: array<Feature>
    var ringDev: seq<nat>
    var ringWrite: nat
    var ringObjptr: seq<Feature>
    var condObjPtr: Feature
    var frameIdx: int
    ghost var features: seq<Feature>
    ghost var pointers: seq<Feature>

    ghost predicate Valid()
      reads this, device
    {
      && device.Length == SLOTS + 1 && RingOk(device[..], ringDev, ringWrite, features)
      && |pointers| == |features| && ringObjptr == Window(pointers, POINTERS)
    }

    /** The state after allocation and a first seed. */
    constructor (seed: Feature, pointer: Feature)
      ensures Valid() && fresh(device) && device[COND] == seed && condObjPtr == pointer
      ensures features == [] && pointers == [] && frameIdx == 0
    {
      hide RingOk, Window;
      device := new Feature[SLOTS + 1](_ => seed);
      ringDev, ringWrite, ringObjptr := [], 0, [];
      condObjPtr, frameIdx := pointer, 0;
      features, pointers := [], [];
      new;
      EmptyOk(device[..]);
    }

    /** The end of seed_cond_frame: a new seed, and empty rings. */
    method Seed(seed: Feature, pointer: Feature)
      requires Valid()
      modifies this, device
      ensures Valid() && device[COND] == seed && condObjPtr == pointer
      ensures features == [] && pointers == [] && frameIdx == 0
    {
      hide RingOk, Window;
      condObjPtr := pointer;
      device[COND] := seed;
      frameIdx := 0;
      ringDev, ringWrite, ringObjptr := [], 0, [];
      features, pointers := [], [];
      EmptyOk(device[..]);
    }

    /** The seven buffers and the sixteen object pointers handed to the memory attention. */
    method Assemble() returns (mm: seq<nat>, objpack: seq<Feature>)
      requires Valid()
      ensures |mm| == SLOTS + 1 && mm[0] == COND && forall s :: 0 <= s < |mm| ==> mm[s] < device.Length
      ensures Named(device[..], mm[1..]) == SlotReads(features, device[COND], SLOTS)
      ensures |objpack| == POINTERS + 1 && objpack[0] == condObjPtr
      ensures Reverse(objpack[1..]) == SlotReads(pointers, condObjPtr, POINTERS)
    {
      ghost var slots := SlotReads(features, device[COND], SLOTS);
      mm := [COND];
      var nm := |ringDev|;
      for s := 1 to SLOTS + 1
        invariant |mm| == s && mm[0] == COND && forall k :: 0 <= k < s ==> mm[k] < device.Length
        invariant forall k :: 1 <= k < s ==> device[mm[k]] == slots[k - 1]
      {
        var fromNewest := SLOTS - s;
        if fromNewest < nm {
          assert EntryOk(device[..], ringDev, features, nm - 1 - fromNewest);
          mm := mm + [ringDev[nm - 1 - fromNewest]];
        } else {
          mm := mm + [COND];
        }
      }
      assert forall k :: 0 <= k < SLOTS ==> mm[1..][k] == mm[k + 1];
      ghost var ptrs := SlotReads(pointers, condObjPtr, POINTERS);
      objpack := [condObjPtr];
      var no := |ringObjptr|;
      for p := 1 to POINTERS + 1
        invariant |objpack| == p && objpack[0] == condObjPtr
        invariant forall k :: 1 <= k < p ==> objpack[k] == ptrs[POINTERS - k]
      {
        var fromNewest := p - 1;
        objpack := objpack + [if fromNewest < no then ringObjptr[no - 1 - fromNewest] else condObjPtr];
      }
    }

    /** The end of track_frame: overwrite one buffer and move both rings. */
    method Remember(x: Feature, pointer: Feature)
      requires Valid()
      modifies device, this`ringDev, this`ringWrite, this`ringObjptr, this`features, this`pointers
      ensures Valid() && device[COND] == old(device[COND])
      ensures features == old(features) + [x] && pointers == old(pointers) + [pointer]
      ensures ringDev == Pushed(old(ringDev), old(ringWrite), SLOTS)
      ensures device[..] == old(device[..])[old(ringWrite) := x]
    {
      hide RingOk, Window;
      RingStep(device[..], ringDev, ringWrite, features, x);
      WindowSlides(pointers, pointer, POINTERS);
      var slot := ringWrite;
      device[slot] := x;
      ringWrite := (ringWrite + 1) % SLOTS;
      ringDev := ringDev + [slot];
      if |ringDev| > SLOTS { ringDev := ringDev[1..]; }
      ringObjptr := ringObjptr + [pointer];
      if |ringObjptr| > POINTERS { ringObjptr := ringObjptr[1..]; }
      features, pointers := features + [x], pointers + [pointer];
      assert device[..] == old(device[..])[slot := x];
      assert ringDev == Pushed(old(ringDev), slot, SLOTS) && ringObjptr == Pushed(old(ringObjptr), pointer, POINTERS);
    }
  }
}
