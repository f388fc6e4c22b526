/** The receive virtqueue of the virtio-net driver as a state machine.

    The driver side follows `virtio_net_receive`, one transition per access the device could observe; the
    device takes posted buffers in order, writes to the ones it holds byte by byte, and completes each
    buffer it took once, in any order and reporting any length. */
module VirtioRx {
  import opened Bytes
  import opened Ring16
  import opened VirtioQueue

  /** An entry of the used ring. */
  datatype Used = Used(id: nat, len: nat)

  /** A completion, with what its buffer held at that moment. */
  datatype Completion = Completion(id: nat, len: nat, content: seq<byte>)

  /** Where the driver is inside a call with a buffer of `size` bytes. */
  datatype Pc =
    | Idle
    | Fetch(size: nat)
    | Copy(id: nat, len: nat, size: nat, out: seq<byte>)
    | Repost(id: nat)
    | Bump(id: nat)
  {
    function Reserved(): multiset<nat> {
      if Repost? || Bump? then multiset{id} else multiset{}
    }
  }

  /** What happened so far, with unbounded counters. */
  datatype History = History(
    posted: seq<nat>, taken: nat,          // ids posted, and how many the device took
    done: seq<Completion>,                 // completions, in order
    sizes: seq<nat>,                       // buffer sizes of the calls that consumed one, in order
    delivered: seq<seq<byte>>,             // payloads handed to callers
    retired: multiset<nat>)                // ids consumed by an error return

  datatype Rx = Rx(
    cfg: Config,
    lastUsed: nat,                                 // driver only
    avail: seq<nat>, availIdx: nat,                // driver writes, device reads
    mem: seq<byte>, used: seq<Used>, usedIdx: nat, // device writes, driver reads
    devIdx: nat, held: multiset<nat>,              // device only
    pc: Pc,
    h: History)

  datatype Action = Call(size: nat) | Driver | Take | Write(id: nat, at: nat, b: byte) | Complete(id: nat, len: nat)

  /** The checks an entry must pass to be delivered into a buffer of `size` bytes. */
  predicate Accepts(len: nat, size: nat) {
    HDR_LEN <= len <= MAX_PACKET && len - HDR_LEN <= size
  }

  /** The 2048 bytes from the start of buffer `id`, which is what the driver may read for any length it accepts.
      The device may write them up to the end of the buffer, `off` bytes earlier. */
  function Buffer(cfg: Config, mem: seq<byte>, id: nat): (b: seq<byte>)
    requires |mem| == MEM_LEN && cfg.off <= 2
    ensures |b| == if id < QUEUE_SIZE then MAX_PACKET else 0
  {
    if id < QUEUE_SIZE then mem[cfg.Addr(id)..cfg.Addr(id) + MAX_PACKET] else []
  }

  ghost predicate Shape(s: Rx) {
    && s.cfg.Ok()
    && |s.mem| == MEM_LEN && |s.avail| == |s.used| == s.cfg.ring
    && s.lastUsed < U16 && s.availIdx < U16 && s.usedIdx < U16 && s.devIdx < U16
    && (s.pc.Copy? ==> s.pc.id < QUEUE_SIZE && Accepts(s.pc.len, s.pc.size) && |s.pc.out| <= s.pc.len - HDR_LEN)
  }

  /** The entry at the head of the used ring is read and checked. */
  function FetchStep(s: Rx): Rx
    requires Shape(s) && s.pc.Fetch?
  {
    var e := s.used[Slot(s.lastUsed, s.cfg.ring)];
    if e.id < QUEUE_SIZE && Accepts(e.len, s.pc.size) then
      s.(pc := Copy(e.id, e.len, s.pc.size, []))
    else
      s.(pc := Idle, lastUsed := Inc16(s.lastUsed),
         h := s.h.(sizes := s.h.sizes + [s.pc.size], retired := s.h.retired + multiset{e.id}))
  }

  /** One byte of the payload is copied out. */
  function CopyByte(s: Rx): Rx
    requires Shape(s) && s.pc.Copy? && |s.pc.out| < s.pc.len - HDR_LEN
  {
    s.(pc := s.pc.(out := s.pc.out + [s.mem[s.cfg.Addr(s.pc.id) + HDR_LEN + |s.pc.out|]]))
  }

  /** The copy is complete and the entry consumed. */
  function ConsumeStep(s: Rx): Rx
    requires Shape(s) && s.pc.Copy?
  {
    s.(pc := Repost(s.pc.id), lastUsed := Inc16(s.lastUsed),
       h := s.h.(sizes := s.h.sizes + [s.pc.size], delivered := s.h.delivered + [s.pc.out]))
  }

  function DriverStep(s: Rx): Rx
    requires Shape(s)
  {
    match s.pc
    case Idle => s
    case Fetch(_) => FetchStep(s)
    case Copy(id, len, size, out) => if |out| < len - HDR_LEN then CopyByte(s) else ConsumeStep(s)
    case Repost(id) => s.(avail := s.avail[Slot(s.availIdx, s.cfg.ring) := id], pc := Bump(id))
    case Bump(id) => s.(availIdx := Inc16(s.availIdx), pc := Idle, h := s.h.(posted := s.h.posted + [id]))
  }

  /** Entry of `virtio_net_receive`: without a new completion the call returns at once. */
  function CallStep(s: Rx, size: nat): Rx {
    if s.usedIdx == s.lastUsed then s else s.(pc := Fetch(size))
  }

  function TakeStep(s: Rx): Rx
    requires Shape(s)
  {
    s.(devIdx := Inc16(s.devIdx), held := s.held + multiset{s.avail[Slot(s.devIdx, s.cfg.ring)]},
       h := s.h.(taken := s.h.taken + 1))
  }

  function WriteStep(s: Rx, id: nat, at: nat, b: byte): Rx
    requires Shape(s)
  {
    if id < QUEUE_SIZE && at < MAX_PACKET - s.cfg.off then s.(mem := s.mem[s.cfg.Addr(id) + at := b]) else s
  }

  function CompleteStep(s: Rx, id: nat, len: nat): Rx
    requires Shape(s)
  {
    s.(used := s.used[Slot(s.usedIdx, s.cfg.ring) := Used(id, len)], usedIdx := Inc16(s.usedIdx),
       held := s.held - multiset{id},
       h := s.h.(done := s.h.done + [Completion(id, len, Buffer(s.cfg, s.mem, id))]))
  }

  predicate Enabled(s: Rx, a: Action) {
    match a
    case Call(_) => s.pc.Idle?
    case Driver => !s.pc.Idle?
    case Take => s.devIdx != s.availIdx
    case Write(id, _, _) => id in s.held
    case Complete(id, _) => id in s.held
  }

  function Step(s: Rx, a: Action): Rx
    requires Shape(s)
  {
    match a
    case Call(size) => CallStep(s, size)
    case Driver => DriverStep(s)
    case Take => TakeStep(s)
    case Write(id, at, b) => WriteStep(s, id, at, b)
    case Complete(id, len) => CompleteStep(s, id, len)
  }

  /** One transition. */
  ghost predicate Next(s: Rx, a: Action, s': Rx) {
    Shape(s) && Enabled(s, a) && s' == Step(s, a)
  }

  /** The descriptor ids below `n`, in order. */
  function Numbers(n: nat): (r: seq<nat>)
    ensures |r| == n && forall k | 0 <= k < n :: r[k] == k
  {
    seq(n, k => k)
  }

  /** After `virtio_net_init_context`: all 16 buffers posted, in order. */
  ghost predicate Initial(s: Rx) {
    && Shape(s) && s.pc.Idle?
    && s.availIdx == 16 && (forall k | 0 <= k < 16 :: s.avail[k] == k)
    && s.lastUsed == s.usedIdx == s.devIdx == 0
    && s.held == multiset{}
    && s.h == History(Numbers(QUEUE_SIZE), 0, [], [], [], multiset{})
  }

  // ---------------------------------------------------------------- ownership

  function Consumed(s: Rx): nat {
    |s.h.sizes|
  }

  function Pending(s: Rx): seq<nat>
    requires s.h.taken <= |s.h.posted|
  {
    s.h.posted[s.h.taken..]
  }

  function Ids(done: seq<Completion>): (ids: seq<nat>)
    ensures |ids| == |done| && forall k | 0 <= k < |done| :: ids[k] == done[k].id
  {
    seq(|done|, k requires 0 <= k < |done| => done[k].id)
  }

  function Unconsumed(s: Rx): seq<nat>
    requires Consumed(s) <= |s.h.done|
  {
    Ids(s.h.done)[Consumed(s)..]
  }

  ghost predicate Counters(s: Rx) {
    && s.h.taken <= |s.h.posted| && Consumed(s) <= |s.h.done|
    && s.availIdx == |s.h.posted| % U16 && s.devIdx == s.h.taken % U16
    && s.usedIdx == |s.h.done| % U16 && s.lastUsed == Consumed(s) % U16
    && (s.pc.Fetch? || s.pc.Copy? ==> Consumed(s) < |s.h.done|)
    && (s.pc.Copy? ==> s.h.done[Consumed(s)].id == s.pc.id && s.h.done[Consumed(s)].len == s.pc.len)
  }

  /** Every buffer, by owner: posted, held, completed but unconsumed, lost to an error return, being reposted. */
  function Owned(s: Rx): multiset<nat>
    requires Counters(s)
  {
    multiset(Pending(s)) + s.held + multiset(Unconsumed(s)) + s.h.retired + s.pc.Reserved()
  }

  ghost predicate Rings(s: Rx)
    requires Shape(s) && Counters(s)
  {
    && (forall k | s.h.taken <= k < |s.h.posted| :: s.avail[Slot(k, s.cfg.ring)] == s.h.posted[k])
    && (forall k | Consumed(s) <= k < |s.h.done| ::
          s.used[Slot(k, s.cfg.ring)] == Used(s.h.done[k].id, s.h.done[k].len))
    && (s.pc.Bump? ==> s.avail[Slot(|s.h.posted|, s.cfg.ring)] == s.pc.id)
  }

  function All(): (b: seq<bool>)
    ensures |b| == QUEUE_SIZE && forall k | 0 <= k < QUEUE_SIZE :: b[k]
  {
    seq(16, _ => true)
  }

  /** Each of the 16 buffers has exactly one owner. */
  ghost predicate OwnInv(s: Rx) {
    Shape(s) && Counters(s) && Rings(s) && Exactly(Owned(s), All())
  }

  lemma {:induction false} Conservation(s: Rx)
    requires OwnInv(s)
    ensures |Pending(s)| + |s.held| + |Unconsumed(s)| + |s.h.retired| + |s.pc.Reserved()| == QUEUE_SIZE
  {
    ExactlyCount(Owned(s), All());
    assert |multiset(Pending(s))| == |Pending(s)|;
    assert |multiset(Unconsumed(s))| == |Unconsumed(s)|;
  }

  /** The head of the used ring, while the driver looks at it. */
  lemma {:induction false} HeadEntry(s: Rx)
    requires OwnInv(s) && Consumed(s) < |s.h.done|
    ensures s.used[Slot(s.lastUsed, s.cfg.ring)] == Used(s.h.done[Consumed(s)].id, s.h.done[Consumed(s)].len)
    ensures s.h.done[Consumed(s)].id < QUEUE_SIZE
  {
    SlotTracks(Consumed(s), s.cfg.ring);
    assert Unconsumed(s)[0] == s.h.done[Consumed(s)].id;
    assert s.h.done[Consumed(s)].id in multiset(Unconsumed(s));
    assert Owned(s)[s.h.done[Consumed(s)].id] >= 1;
  }

  /** A completion is copied out exactly when it reports a header and at most 2038 bytes behind it, and the caller's
      buffer holds those; otherwise it is consumed and its buffer lost. */
  lemma {:induction false} AdmitsIff(s: Rx)
    requires OwnInv(s) && s.pc.Fetch?
    ensures Consumed(s) < |s.h.done|
    ensures var c := s.h.done[Consumed(s)];
            && (FetchStep(s).pc.Copy? <==> 10 <= c.len <= 2048 && c.len - 10 <= s.pc.size)
            && (!FetchStep(s).pc.Copy? ==> FetchStep(s).h.retired == s.h.retired + multiset{c.id})
  {
    HeadEntry(s);
  }

  /** Consuming the head entry takes its buffer out of the unconsumed ones. */
  lemma {:induction false} ConsumeMoves(s: Rx, s': Rx)
    requires Counters(s) && Consumed(s) < |s.h.done| && s'.h.done == s.h.done
    requires |s'.h.sizes| == |s.h.sizes| + 1
    ensures multiset(Unconsumed(s)) == multiset{s.h.done[Consumed(s)].id} + multiset(Unconsumed(s'))
  {
    assert Unconsumed(s) == [s.h.done[Consumed(s)].id] + Unconsumed(s');
  }

  lemma {:induction false} FetchKeepsOwn(s: Rx)
    requires OwnInv(s) && s.pc.Fetch?
    ensures OwnInv(FetchStep(s))
  {
    hide Exactly, Rings, Owned;
    FetchMoves(s);
    FetchRings(s);
  }

  lemma {:induction false} FetchMoves(s: Rx)
    requires OwnInv(s) && s.pc.Fetch?
    ensures Counters(FetchStep(s)) && Owned(FetchStep(s)) == Owned(s)
  {
    hide Rings, Exactly;
    var s' := FetchStep(s);
    HeadEntry(s);
    IncTracks(Consumed(s));
    if s'.pc.Idle? {
      ConsumeMoves(s, s');
    }
  }

  lemma {:induction false} FetchRings(s: Rx)
    requires Shape(s) && Counters(s) && Rings(s) && s.pc.Fetch? && Counters(FetchStep(s))
    ensures Shape(FetchStep(s)) && Rings(FetchStep(s))
  {
    hide Slot;
  }

  lemma {:induction false} ConsumeKeepsOwn(s: Rx)
    requires OwnInv(s) && s.pc.Copy?
    ensures OwnInv(ConsumeStep(s))
  {
    var s' := ConsumeStep(s);
    IncTracks(Consumed(s));
    ConsumeMoves(s, s');
    assert Owned(s') == Owned(s);
  }

  lemma {:induction false} CopyKeepsOwn(s: Rx)
    requires OwnInv(s) && s.pc.Copy? && |s.pc.out| < s.pc.len - HDR_LEN
    ensures OwnInv(CopyByte(s))
  {
    assert Owned(CopyByte(s)) == Owned(s);
  }

  lemma {:induction false} RepostSlotFree(s: Rx, k: nat)
    requires OwnInv(s) && s.pc.Repost? && s.h.taken <= k < |s.h.posted|
    ensures Slot(k, s.cfg.ring) != Slot(s.availIdx, s.cfg.ring)
  {
    Conservation(s);
    SlotTracks(|s.h.posted|, s.cfg.ring);
    SlotsDiffer(k, |s.h.posted|, s.cfg.ring);
  }

  /** The entry written is not one the device has yet to read. */
  lemma {:induction false} RepostRings(s: Rx)
    requires Shape(s) && Counters(s) && Rings(s) && s.pc.Repost?
    requires forall k | s.h.taken <= k < |s.h.posted| :: Slot(k, s.cfg.ring) != Slot(s.availIdx, s.cfg.ring)
    ensures Shape(DriverStep(s)) && Counters(DriverStep(s)) && Rings(DriverStep(s))
  {
    SlotTracks(|s.h.posted|, s.cfg.ring);
    hide Slot;
  }

  lemma RepostOwned(s: Rx)
    requires Shape(s) && Counters(s) && s.pc.Repost? && Counters(DriverStep(s))
    ensures Owned(DriverStep(s)) == Owned(s)
  {}

  lemma {:induction false} RepostKeepsOwn(s: Rx)
    requires OwnInv(s) && s.pc.Repost?
    ensures OwnInv(DriverStep(s))
  {
    hide Slot, Exactly, Rings, Owned;
    forall k | s.h.taken <= k < |s.h.posted|
      ensures Slot(k, s.cfg.ring) != Slot(s.availIdx, s.cfg.ring)
    {
      RepostSlotFree(s, k);
    }
    RepostRings(s);
    RepostOwned(s);
  }

  lemma {:induction false} BumpMoves(s: Rx)
    requires Shape(s) && Counters(s) && s.pc.Bump?
    ensures Counters(DriverStep(s)) && Owned(DriverStep(s)) == Owned(s)
  {
    IncTracks(|s.h.posted|);
    assert Pending(DriverStep(s)) == Pending(s) + [s.pc.id];
  }

  lemma {:induction false} BumpRings(s: Rx)
    requires Shape(s) && Counters(s) && Rings(s) && s.pc.Bump? && Counters(DriverStep(s))
    ensures Shape(DriverStep(s)) && Rings(DriverStep(s))
  {
    hide Slot;
  }

  lemma {:induction false} BumpKeepsOwn(s: Rx)
    requires OwnInv(s) && s.pc.Bump?
    ensures OwnInv(DriverStep(s))
  {
    hide Exactly, Rings, Owned;
    BumpMoves(s);
    BumpRings(s);
  }

  lemma {:induction false} DriverKeepsOwn(s: Rx)
    requires OwnInv(s) && !s.pc.Idle?
    ensures OwnInv(DriverStep(s))
  {
    match s.pc {
      case Fetch(_) => FetchKeepsOwn(s);
      case Copy(id, len, size, out) =>
        if |out| < len - HDR_LEN { CopyKeepsOwn(s); } else { ConsumeKeepsOwn(s); }
      case Repost(id) => RepostKeepsOwn(s);
      case Bump(id) => BumpKeepsOwn(s);
    }
  }

  lemma {:induction false} TakeKeepsOwn(s: Rx)
    requires OwnInv(s) && s.devIdx != s.availIdx
    ensures OwnInv(TakeStep(s)) && s.h.taken < |s.h.posted|
  {
    var s' := TakeStep(s);
    SlotTracks(s.h.taken, s.cfg.ring);
    IncTracks(s.h.taken);
    assert Pending(s) == [s.h.posted[s.h.taken]] + Pending(s');
    assert Owned(s') == Owned(s);
  }

  /** The device finds its next slot of the used ring free. */
  lemma {:induction false} UsedSlotFree(s: Rx, id: nat)
    requires OwnInv(s) && id in s.held
    ensures id < QUEUE_SIZE
    ensures forall k | Consumed(s) <= k < |s.h.done| :: Slot(k, s.cfg.ring) != Slot(|s.h.done|, s.cfg.ring)
  {
    Conservation(s);
    assert Owned(s)[id] >= 1;
    assert |s.held| >= 1;
    forall k | Consumed(s) <= k < |s.h.done|
      ensures Slot(k, s.cfg.ring) != Slot(|s.h.done|, s.cfg.ring)
    {
      SlotsDiffer(k, |s.h.done|, s.cfg.ring);
    }
  }

  lemma {:induction false} CompleteMoves(s: Rx, id: nat, len: nat)
    requires Shape(s) && Counters(s) && id in s.held
    ensures Counters(CompleteStep(s, id, len)) && Owned(CompleteStep(s, id, len)) == Owned(s)
  {
    IncTracks(|s.h.done|);
    assert Unconsumed(CompleteStep(s, id, len)) == Unconsumed(s) + [id];
  }

  lemma {:induction false} CompleteKeepsOwn(s: Rx, id: nat, len: nat)
    requires OwnInv(s) && id in s.held
    ensures OwnInv(CompleteStep(s, id, len))
  {
    hide Exactly, Rings, Owned;
    UsedSlotFree(s, id);
    CompleteMoves(s, id, len);
    CompleteRings(s, id, len);
  }

  lemma {:induction false} CompleteRings(s: Rx, id: nat, len: nat)
    requires Shape(s) && Counters(s) && Rings(s) && Counters(CompleteStep(s, id, len)) && id < QUEUE_SIZE
    requires forall k | Consumed(s) <= k < |s.h.done| :: Slot(k, s.cfg.ring) != Slot(|s.h.done|, s.cfg.ring)
    ensures Shape(CompleteStep(s, id, len)) && Rings(CompleteStep(s, id, len))
  {
    SlotTracks(|s.h.done|, s.cfg.ring);
    UsedFollows(s.cfg.ring, s.used, s.h.done, Consumed(s), Completion(id, len, Buffer(s.cfg, s.mem, id)));
    hide Slot, Buffer;
  }

  /** The used ring after one more completion. */
  lemma {:induction false} UsedFollows(ring: nat, used: seq<Used>, done: seq<Completion>, from: nat, c: Completion)
    requires RingSize(ring) && |used| == ring
    requires forall k | from <= k < |done| :: Slot(k, ring) != Slot(|done|, ring)
    requires forall k | from <= k < |done| :: used[Slot(k, ring)] == Used(done[k].id, done[k].len)
    ensures forall k | from <= k < |done| + 1 ::
              used[Slot(|done|, ring) := Used(c.id, c.len)][Slot(k, ring)] == Used((done + [c])[k].id, (done + [c])[k].len)
  {
    hide Slot;
  }

  lemma {:induction false} CallKeepsOwn(s: Rx, size: nat)
    requires OwnInv(s) && s.pc.Idle?
    ensures OwnInv(CallStep(s, size))
    ensures s.usedIdx == s.lastUsed <==> Consumed(s) == |s.h.done|
  {
    Conservation(s);
    SameIndex(Consumed(s), |s.h.done|);
    assert Owned(CallStep(s, size)) == Owned(s);
  }

  lemma {:induction false} WriteKeepsOwn(s: Rx, id: nat, at: nat, b: byte)
    requires OwnInv(s)
    ensures OwnInv(WriteStep(s, id, at, b))
  {
    assert Owned(WriteStep(s, id, at, b)) == Owned(s);
  }

  lemma {:induction false} StepKeepsOwn(s: Rx, a: Action)
    requires OwnInv(s) && Enabled(s, a)
    ensures OwnInv(Step(s, a))
  {
    hide OwnInv;
    match a {
      case Call(size) => CallKeepsOwn(s, size);
      case Driver => DriverKeepsOwn(s);
      case Take => TakeKeepsOwn(s);
      case Write(id, at, b) => WriteKeepsOwn(s, id, at, b);
      case Complete(id, len) => CompleteKeepsOwn(s, id, len);
    }
  }

  // ---------------------------------------------------------------- content

  /** The bytes of a completion a caller should get: header stripped. */
  function Payload(c: Completion): seq<byte> {
    if HDR_LEN <= c.len <= |c.content| then c.content[HDR_LEN..c.len] else []
  }

  /** The payloads due for the consumed completions, given the buffer size of each consuming call. */
  function Due(done: seq<Completion>, sizes: seq<nat>): seq<seq<byte>>
    requires |sizes| <= |done|
  {
    if sizes == [] then []
    else
      var n := |sizes| - 1;
      Due(done, sizes[..n]) + if Accepts(done[n].len, sizes[n]) then [Payload(done[n])] else []
  }

  /** The ids of the consumed completions that were refused. */
  function Refused(done: seq<Completion>, sizes: seq<nat>): multiset<nat>
    requires |sizes| <= |done|
  {
    if sizes == [] then multiset{}
    else
      var n := |sizes| - 1;
      Refused(done, sizes[..n]) + if Accepts(done[n].len, sizes[n]) then multiset{} else multiset{done[n].id}
  }

  lemma {:induction false} DueExtends(done: seq<Completion>, c: Completion, sizes: seq<nat>)
    requires |sizes| <= |done|
    ensures Due(done + [c], sizes) == Due(done, sizes) && Refused(done + [c], sizes) == Refused(done, sizes)
    decreases |sizes|
  {
    if sizes != [] {
      DueExtends(done, c, sizes[..|sizes| - 1]);
    }
  }

  lemma {:induction false} DueNext(done: seq<Completion>, sizes: seq<nat>, size: nat)
    requires |sizes| < |done|
    ensures Due(done, sizes + [size])
         == Due(done, sizes) + if Accepts(done[|sizes|].len, size) then [Payload(done[|sizes|])] else []
    ensures Refused(done, sizes + [size])
         == Refused(done, sizes) + if Accepts(done[|sizes|].len, size) then multiset{} else multiset{done[|sizes|].id}
  {
    assert (sizes + [size])[..|sizes|] == sizes;
  }

  /** Buffers of unconsumed completions still hold what the device left there. */
  ghost predicate Intact(s: Rx)
    requires Shape(s) && Consumed(s) <= |s.h.done|
  {
    forall k | Consumed(s) <= k < |s.h.done| :: s.h.done[k].content == Buffer(s.cfg, s.mem, s.h.done[k].id)
  }

  /** What was delivered is what was due; the copy under way is right so far. */
  ghost predicate Delivery(s: Rx)
    requires Shape(s) && Counters(s)
  {
    && s.h.retired == Refused(s.h.done, s.h.sizes)
    && s.h.delivered == Due(s.h.done, s.h.sizes)
    && (s.pc.Copy? ==> s.pc.out <= Payload(s.h.done[Consumed(s)]))
  }

  /** A device write lands in a buffer the device holds, so no completed buffer changes. */
  lemma {:induction false} WriteKeepsBuffer(s: Rx, id: nat, at: nat, b: byte, j: nat)
    requires Shape(s) && j != id
    ensures Buffer(s.cfg, WriteStep(s, id, at, b).mem, j) == Buffer(s.cfg, s.mem, j)
  {
    if id < QUEUE_SIZE && at < MAX_PACKET - s.cfg.off && j < QUEUE_SIZE {
      var a := s.cfg.Addr(id) + at;
      var lo := s.cfg.Addr(j);
      var hi := lo + MAX_PACKET;
      assert a < lo || hi <= a;
      assert WriteStep(s, id, at, b).mem[lo..hi] == s.mem[lo..hi];
    }
  }

  lemma {:induction false} UnconsumedNotHeld(s: Rx, k: nat)
    requires OwnInv(s) && Consumed(s) <= k < |s.h.done|
    ensures s.h.done[k].id !in s.held
  {
    assert Unconsumed(s)[k - Consumed(s)] == s.h.done[k].id;
    assert s.h.done[k].id in multiset(Unconsumed(s));
    assert Owned(s)[s.h.done[k].id] <= 1;
  }

  lemma {:induction false} WriteKeepsIntact(s: Rx, id: nat, at: nat, b: byte)
    requires OwnInv(s) && Intact(s) && id in s.held
    ensures Intact(WriteStep(s, id, at, b))
  {
    forall k | Consumed(s) <= k < |s.h.done|
      ensures s.h.done[k].content == Buffer(s.cfg, WriteStep(s, id, at, b).mem, s.h.done[k].id)
    {
      UnconsumedNotHeld(s, k);
      WriteKeepsBuffer(s, id, at, b, s.h.done[k].id);
    }
  }

  lemma BufferByte(cfg: Config, mem: seq<byte>, id: nat, k: nat)
    requires |mem| == MEM_LEN && cfg.off <= 2 && id < QUEUE_SIZE && k < MAX_PACKET
    ensures Buffer(cfg, mem, id)[k] == mem[cfg.Addr(id) + k]
  {}

  lemma {:induction false} NextByte(s: Rx, c: Completion)
    requires Shape(s) && s.pc.Copy? && |s.pc.out| < s.pc.len - HDR_LEN
    requires c.id == s.pc.id && c.len == s.pc.len && c.content == Buffer(s.cfg, s.mem, c.id)
    requires s.pc.out <= Payload(c)
    ensures CopyByte(s).pc.out <= Payload(c)
  {
    var n := |s.pc.out|;
    BufferByte(s.cfg, s.mem, c.id, HDR_LEN + n);
    hide Buffer;
    assert Payload(c)[n] == c.content[HDR_LEN + n];
  }

  lemma {:induction false} CopyKeepsDelivery(s: Rx)
    requires Shape(s) && Counters(s) && Intact(s) && Delivery(s)
    requires s.pc.Copy? && |s.pc.out| < s.pc.len - HDR_LEN && Counters(CopyByte(s))
    ensures Delivery(CopyByte(s))
  {
    NextByte(s, s.h.done[Consumed(s)]);
  }

  /** What is copied when the copy is complete. */
  lemma {:induction false} CopiedWhole(s: Rx)
    requires Shape(s) && Counters(s) && Intact(s) && Delivery(s)
    requires s.pc.Copy? && |s.pc.out| == s.pc.len - HDR_LEN
    ensures s.pc.out == Payload(s.h.done[Consumed(s)])
  {
    assert |s.h.done[Consumed(s)].content| == MAX_PACKET;
  }

  lemma {:induction false} ConsumeKeepsDelivery(s: Rx)
    requires Shape(s) && Counters(s) && Intact(s) && Delivery(s)
    requires s.pc.Copy? && |s.pc.out| == s.pc.len - HDR_LEN && Counters(ConsumeStep(s))
    ensures Delivery(ConsumeStep(s))
  {
    DueNext(s.h.done, s.h.sizes, s.pc.size);
    CopiedWhole(s);
  }

  lemma {:induction false} FetchKeepsDelivery(s: Rx)
    requires OwnInv(s) && Delivery(s) && s.pc.Fetch? && Counters(FetchStep(s))
    ensures Delivery(FetchStep(s))
  {
    HeadEntry(s);
    DueNext(s.h.done, s.h.sizes, s.pc.size);
  }

  lemma {:induction false} CompleteKeepsDelivery(s: Rx, id: nat, len: nat)
    requires Shape(s) && Counters(s) && Delivery(s) && Counters(CompleteStep(s, id, len))
    ensures Delivery(CompleteStep(s, id, len))
  {
    DueExtends(s.h.done, Completion(id, len, Buffer(s.cfg, s.mem, id)), s.h.sizes);
  }

  lemma {:induction false} StepKeepsDelivery(s: Rx, a: Action)
    requires OwnInv(s) && Intact(s) && Delivery(s) && Enabled(s, a)
    requires OwnInv(Step(s, a))
    ensures Delivery(Step(s, a))
  {
    match a {
      case Driver =>
        match s.pc {
          case Fetch(_) => FetchKeepsDelivery(s);
          case Copy(_, len, _, out) =>
            if |out| < len - HDR_LEN { CopyKeepsDelivery(s); } else { ConsumeKeepsDelivery(s); }
          case _ =>
        }
      case Complete(id, len) => CompleteKeepsDelivery(s, id, len);
      case _ =>
    }
  }

  /** Steps that write no buffer keep the completed ones. */
  lemma {:induction false} SameBuffers(s: Rx, s': Rx)
    requires Shape(s) && Shape(s') && s'.cfg == s.cfg && s'.mem == s.mem && s'.h.done == s.h.done
    requires Consumed(s) <= Consumed(s') <= |s'.h.done| && Intact(s)
    ensures Intact(s')
  {}

  lemma {:induction false} CompleteKeepsIntact(s: Rx, id: nat, len: nat)
    requires Shape(s) && Consumed(s) <= |s.h.done| && Intact(s)
    requires Shape(CompleteStep(s, id, len)) && Consumed(CompleteStep(s, id, len)) <= |s.h.done| + 1
    ensures Intact(CompleteStep(s, id, len))
  {}

  lemma {:induction false} DriverKeepsIntact(s: Rx)
    requires OwnInv(s) && Intact(s) && OwnInv(DriverStep(s))
    ensures Intact(DriverStep(s))
  {
    SameBuffers(s, DriverStep(s));
  }

  lemma {:induction false} StepKeepsIntact(s: Rx, a: Action)
    requires OwnInv(s) && Intact(s) && Enabled(s, a)
    requires OwnInv(Step(s, a))
    ensures Intact(Step(s, a))
  {
    match a {
      case Write(id, at, b) => WriteKeepsIntact(s, id, at, b);
      case Complete(id, len) => CompleteKeepsIntact(s, id, len);
      case Driver => DriverKeepsIntact(s);
      case Take => SameBuffers(s, TakeStep(s));
      case Call(size) => SameBuffers(s, CallStep(s, size));
    }
  }
}
