/** The transmit virtqueue of the virtio-net driver as a state machine: every driver micro-step and
    every device step is one transition, and nothing orders the two sides but what the code waits for.

    The driver side follows `virtio_net_transmit` and `virtio_net_reclaim_tx`; the device side takes
    available entries in order and completes each entry it took once, in any order (section 2.6 of
    VirtIO 1.1). The concrete part of a state is what the two sides hold in memory; the history part
    (`h`) is never read by a transition and serves only to say what happened. */
module VirtioTx {
  import opened Bytes
  import opened Ring16
  import opened VirtioQueue

  type Packet = seq<byte>

  /** Whether header and packet stay inside one 2048-byte slot. */
  predicate Fits(cfg: Config, p: Packet) {
    cfg.off + HDR_LEN + |p| <= MAX_PACKET
  }

  /** The length guard of `virtio_net_transmit`. */
  predicate Accepted(p: Packet) {
    0 < |p| <= MAX_PACKET
  }

  /** What does not reach into the next slot's packet: the frame's bytes behind its first 2048 are zero, like the
      header they may fall on. */
  predicate Clean(p: Packet) {
    forall k | MAX_PACKET - HDR_LEN <= k < |p| :: p[k] == 0
  }

  const ZERO_HEADER: seq<byte> := [0, 0, 0, 0, 0, 0, 0, 0, 0, 0]

  /** What the device should read: an all-zero header, then the packet. */
  function Frame(p: Packet): (f: seq<byte>)
    ensures |f| == HDR_LEN + |p|
  {
    ZERO_HEADER + p
  }

  /** Where the driver is inside a call. */
  datatype Pc =
    | Idle
    | Reclaim(snap: nat, packet: Packet)
    | Scan(packet: Packet)
    | Fill(id: nat, packet: Packet, n: nat)
    | Describe(id: nat, packet: Packet)
    | WriteSlot(id: nat, packet: Packet)
    | Publish(id: nat, packet: Packet)
  {
    /** The descriptor reserved but not yet visible to the device. */
    function Reserved(): multiset<nat> {
      if Fill? || Describe? || WriteSlot? || Publish? then multiset{id} else multiset{}
    }
  }

  /** What happened so far, with unbounded counters. */
  datatype History = History(
    pubIds: seq<nat>, pubPackets: seq<Packet>,   // published, in call order
    taken: nat,                                  // how many of those the device took
    wire: seq<seq<byte>>,                        // the frames it read when taking them
    done: seq<nat>,                              // completed ids, in completion order
    reclaimed: nat,                              // how many of those the driver reclaimed
    target: nat,                                 // completions covered by the running reclaim loop
    job: map<nat, Packet>)                       // the packet each outstanding descriptor carries

  datatype Tx = Tx(
    cfg: Config,
    inUse: seq<bool>, lastUsed: nat,                            // driver only
    mem: seq<byte>, desc: seq<Desc>, avail: seq<nat>, availIdx: nat, // driver writes, device reads
    used: seq<nat>, usedIdx: nat,                               // device writes, driver reads
    devIdx: nat, held: multiset<nat>,                           // device only
    pc: Pc,
    h: History)

  datatype Action = Call(packet: Packet) | Driver | Take | Complete(id: nat)

  /** The first descriptor not in use, or 16. */
  function FirstFree(inUse: seq<bool>): (i: nat)
    ensures i <= |inUse|
    ensures forall k :: 0 <= k < i ==> inUse[k]
    ensures i < |inUse| ==> !inUse[i]
  {
    if inUse == [] || !inUse[0] then 0 else 1 + FirstFree(inUse[1..])
  }

  function DescAt(s: Tx, id: nat): Desc {
    if id < |s.desc| then s.desc[id] else Desc(0, 0, 0, 0)
  }

  /** The bytes a descriptor points at. */
  function ReadDesc(s: Tx, d: Desc): seq<byte> {
    if d.addr + d.len <= |s.mem| then s.mem[d.addr..d.addr + d.len] else []
  }

  ghost predicate Shape(s: Tx) {
    && s.cfg.Ok()
    && |s.inUse| == |s.desc| == QUEUE_SIZE
    && |s.mem| == MEM_LEN
    && |s.avail| == |s.used| == s.cfg.ring
    && s.lastUsed < U16 && s.availIdx < U16 && s.usedIdx < U16 && s.devIdx < U16
    && match s.pc
       case Fill(i, p, n) => i < QUEUE_SIZE && Accepted(p) && n <= HDR_LEN + |p|
       case Describe(i, p) => i < QUEUE_SIZE && Accepted(p)
       case WriteSlot(i, p) => i < QUEUE_SIZE && Accepted(p)
       case Publish(i, p) => i < QUEUE_SIZE && Accepted(p)
       case Scan(p) => Accepted(p)
       case Reclaim(_, p) => Accepted(p)
       case Idle => true
  }

  /** One turn of the reclaim loop. */
  function ReclaimOne(s: Tx): Tx
    requires Shape(s)
  {
    var id := s.used[Slot(s.lastUsed, s.cfg.ring)];
    s.(inUse := if id < QUEUE_SIZE then s.inUse[id := false] else s.inUse,
       lastUsed := Inc16(s.lastUsed),
       h := s.h.(reclaimed := s.h.reclaimed + 1, job := s.h.job - {id}))
  }

  /** One byte of the header or of the packet goes to the reserved buffer. */
  function FillByte(s: Tx): Tx
    requires Shape(s) && s.pc.Fill? && s.pc.n < |Frame(s.pc.packet)|
  {
    var Fill(i, p, n) := s.pc;
    s.(mem := s.mem[s.cfg.Addr(i) + n := Frame(p)[n]], pc := Fill(i, p, n + 1))
  }

  /** The driver's next micro-step. */
  function DriverStep(s: Tx): Tx
    requires Shape(s)
  {
    match s.pc
    case Idle => s
    case Reclaim(snap, p) =>
      if s.lastUsed != snap then ReclaimOne(s) else s.(pc := Scan(p))
    case Scan(p) =>
      var i := FirstFree(s.inUse);
      if i == QUEUE_SIZE then s.(pc := Idle) else s.(inUse := s.inUse[i := true], pc := Fill(i, p, 0))
    case Fill(i, p, n) =>
      if n < |Frame(p)| then FillByte(s)
      else s.(pc := Describe(i, p))
    case Describe(i, p) =>
      s.(desc := s.desc[i := Desc(s.cfg.Addr(i), |Frame(p)|, 0, 0)], pc := WriteSlot(i, p))
    case WriteSlot(i, p) =>
      s.(avail := s.avail[Slot(s.availIdx, s.cfg.ring) := i], pc := Publish(i, p))
    case Publish(i, p) =>
      s.(availIdx := Inc16(s.availIdx), pc := Idle,
         h := s.h.(pubIds := s.h.pubIds + [i], pubPackets := s.h.pubPackets + [p], job := s.h.job[i := p]))
  }

  /** Entry of `virtio_net_transmit`: the length guard, then the used index is sampled once. */
  function CallStep(s: Tx, p: Packet): Tx {
    if Accepted(p) then s.(pc := Reclaim(s.usedIdx, p), h := s.h.(target := |s.h.done|)) else s
  }

  /** The packets a call does not turn away at once. */
  lemma CallAdmitsIff(s: Tx, p: Packet)
    requires s.pc.Idle?
    ensures CallStep(s, p).pc.Reclaim? <==> 1 <= |p| <= 2048
    ensures !(1 <= |p| <= 2048) ==> CallStep(s, p) == s
  {}

  function TakeStep(s: Tx): Tx
    requires Shape(s)
  {
    var id := s.avail[Slot(s.devIdx, s.cfg.ring)];
    s.(devIdx := Inc16(s.devIdx), held := s.held + multiset{id},
       h := s.h.(taken := s.h.taken + 1, wire := s.h.wire + [ReadDesc(s, DescAt(s, id))]))
  }

  function CompleteStep(s: Tx, id: nat): Tx
    requires Shape(s)
  {
    s.(used := s.used[Slot(s.usedIdx, s.cfg.ring) := id], usedIdx := Inc16(s.usedIdx),
       held := s.held - multiset{id}, h := s.h.(done := s.h.done + [id]))
  }

  predicate Enabled(s: Tx, a: Action) {
    match a
    case Call(_) => s.pc.Idle?
    case Driver => !s.pc.Idle?
    case Take => s.devIdx != s.availIdx
    case Complete(id) => id in s.held
  }

  function Step(s: Tx, a: Action): Tx
    requires Shape(s)
  {
    match a
    case Call(p) => CallStep(s, p)
    case Driver => DriverStep(s)
    case Take => TakeStep(s)
    case Complete(id) => CompleteStep(s, id)
  }

  /** One transition. */
  ghost predicate Next(s: Tx, a: Action, s': Tx) {
    Shape(s) && Enabled(s, a) && s' == Step(s, a)
  }

  /** After `virtio_net_init_virtqueue`: everything zero, nothing in use. */
  ghost predicate Initial(s: Tx) {
    && Shape(s) && s.pc.Idle?
    && (forall i | 0 <= i < QUEUE_SIZE :: !s.inUse[i])
    && s.lastUsed == s.availIdx == s.usedIdx == s.devIdx == 0
    && s.held == multiset{}
    && s.h == History([], [], 0, [], [], 0, 0, map[])
  }

  // ---------------------------------------------------------------- ownership

  function Pending(s: Tx): seq<nat>
    requires s.h.taken <= |s.h.pubIds|
  {
    s.h.pubIds[s.h.taken..]
  }

  function Unreclaimed(s: Tx): seq<nat>
    requires s.h.reclaimed <= |s.h.done|
  {
    s.h.done[s.h.reclaimed..]
  }

  ghost predicate Counters(s: Tx) {
    && s.h.taken <= |s.h.pubIds| && s.h.reclaimed <= |s.h.done|
    && |s.h.pubIds| == |s.h.pubPackets|
    && s.availIdx == |s.h.pubIds| % U16 && s.devIdx == s.h.taken % U16
    && s.usedIdx == |s.h.done| % U16 && s.lastUsed == s.h.reclaimed % U16
    && (s.pc.Reclaim? ==> s.h.reclaimed <= s.h.target <= |s.h.done| && s.pc.snap == s.h.target % U16)
  }

  /** Every descriptor somebody owns, with multiplicity. */
  function Owned(s: Tx): multiset<nat>
    requires Counters(s)
  {
    multiset(Pending(s)) + s.held + multiset(Unreclaimed(s)) + s.pc.Reserved()
  }

  /** The live part of both rings is what was written there. */
  ghost predicate Rings(s: Tx)
    requires Shape(s) && Counters(s)
  {
    && (forall k | s.h.taken <= k < |s.h.pubIds| :: s.avail[Slot(k, s.cfg.ring)] == s.h.pubIds[k])
    && (forall k | s.h.reclaimed <= k < |s.h.done| :: s.used[Slot(k, s.cfg.ring)] == s.h.done[k])
    && (s.pc.Publish? ==> s.avail[Slot(|s.h.pubIds|, s.cfg.ring)] == s.pc.id)
  }

  /** No descriptor has two owners, and `tx_desc_in_use` marks exactly the owned ones. */
  ghost predicate OwnInv(s: Tx) {
    Shape(s) && Counters(s) && Rings(s) && Exactly(Owned(s), s.inUse)
  }

  /** Conservation: published + held + completed + reserved + free = 16. */
  lemma {:induction false} Conservation(s: Tx)
    requires OwnInv(s)
    ensures |Pending(s)| + |s.held| + |Unreclaimed(s)| + |s.pc.Reserved()| == CountTrue(s.inUse) <= QUEUE_SIZE
    ensures |Pending(s)| + |s.pc.Reserved()| <= QUEUE_SIZE
  {
    ExactlyCount(Owned(s), s.inUse);
    assert |multiset(Pending(s))| == |Pending(s)|;
    assert |multiset(Unreclaimed(s))| == |Unreclaimed(s)|;
  }

  /** Steps that touch neither ring nor counters. */
  lemma {:induction false} SameRings(s: Tx, s': Tx)
    requires Shape(s) && Counters(s) && Rings(s) && Shape(s') && Counters(s') && !s'.pc.Publish?
    requires s'.cfg == s.cfg && s'.avail == s.avail && s'.used == s.used && s'.h == s.h
    ensures Rings(s')
  {
    hide Slot;
  }

  /** The entry written is not one the device has yet to read. */
  lemma {:induction false} WriteSlotRings(s: Tx)
    requires Shape(s) && Counters(s) && Rings(s) && s.pc.WriteSlot?
    requires forall k | s.h.taken <= k < |s.h.pubIds| :: Slot(k, s.cfg.ring) != Slot(s.availIdx, s.cfg.ring)
    ensures Shape(DriverStep(s)) && Counters(DriverStep(s)) && Rings(DriverStep(s))
  {
    SlotTracks(|s.h.pubIds|, s.cfg.ring);
    hide Slot;
  }

  lemma {:induction false} WriteSlotFree(s: Tx, k: nat)
    requires OwnInv(s) && s.pc.WriteSlot? && s.h.taken <= k < |s.h.pubIds|
    ensures Slot(k, s.cfg.ring) != Slot(s.availIdx, s.cfg.ring)
  {
    Conservation(s);
    hide Slot, Rings, Exactly, Owned;
    SlotTracks(|s.h.pubIds|, s.cfg.ring);
    SlotsDiffer(k, |s.h.pubIds|, s.cfg.ring);
  }

  lemma {:induction false} WriteSlotKeepsOwn(s: Tx)
    requires OwnInv(s) && s.pc.WriteSlot?
    ensures OwnInv(DriverStep(s))
  {
    hide Slot, Rings, Exactly, Owned;
    forall k | s.h.taken <= k < |s.h.pubIds|
      ensures Slot(k, s.cfg.ring) != Slot(s.availIdx, s.cfg.ring)
    {
      WriteSlotFree(s, k);
    }
    WriteSlotRings(s);
    SameOwned(s, DriverStep(s));
  }

  /** Moving the program counter, with the same reservation, moves no descriptor. */
  lemma SameOwned(s: Tx, s': Tx)
    requires Counters(s) && Counters(s') && s'.h == s.h && s'.held == s.held && s'.pc.Reserved() == s.pc.Reserved()
    ensures Owned(s') == Owned(s)
  {}

  /** Bumping the index moves the descriptor from reserved to pending. */
  lemma {:induction false} PublishMoves(s: Tx)
    requires Shape(s) && Counters(s) && s.pc.Publish?
    ensures Counters(DriverStep(s)) && Owned(DriverStep(s)) == Owned(s)
  {
    IncTracks(|s.h.pubIds|);
    assert Pending(DriverStep(s)) == Pending(s) + [s.pc.id];
  }

  lemma {:induction false} PublishRings(s: Tx)
    requires Shape(s) && Counters(s) && Rings(s) && s.pc.Publish? && Counters(DriverStep(s))
    ensures Shape(DriverStep(s)) && Rings(DriverStep(s))
  {
    hide Slot, Inc16;
    IncTracks(|s.h.pubIds|);
  }

  lemma {:induction false} PublishKeepsOwn(s: Tx)
    requires OwnInv(s) && s.pc.Publish?
    ensures OwnInv(DriverStep(s))
  {
    hide Rings, Exactly, Owned;
    PublishMoves(s);
    PublishRings(s);
  }

  /** The loop test `tx_last_used_idx != used_idx` compares counters: it holds exactly while completions remain. */
  lemma {:induction false} ReclaimTest(s: Tx)
    requires OwnInv(s) && s.pc.Reclaim?
    ensures s.lastUsed != s.pc.snap <==> s.h.reclaimed < s.h.target
  {
    Conservation(s);
    SameIndex(s.h.reclaimed, s.h.target);
  }

  /** Only the reservation changes hands when nothing but the program counter moves. */
  lemma {:induction false} SameQueue(s: Tx, s': Tx)
    requires Counters(s) && !s'.pc.Reclaim? && s'.h == s.h && s'.held == s.held
    requires s'.availIdx == s.availIdx && s'.devIdx == s.devIdx && s'.usedIdx == s.usedIdx && s'.lastUsed == s.lastUsed
    ensures Counters(s') && Owned(s') + s.pc.Reserved() == Owned(s) + s'.pc.Reserved()
  {}

  /** Reserving the first free descriptor marks exactly it. */
  lemma {:induction false} ReserveExactly(m: multiset<nat>, inUse: seq<bool>, i: nat)
    requires Exactly(m, inUse) && i < |inUse| && !inUse[i]
    ensures Exactly(m + multiset{i}, inUse[i := true])
  {}

  lemma {:induction false} ScanKeepsOwn(s: Tx)
    requires OwnInv(s) && s.pc.Scan?
    ensures OwnInv(DriverStep(s))
  {
    hide Rings, Exactly, Owned;
    var s' := DriverStep(s);
    assert Shape(s');
    SameQueue(s, s');
    SameRings(s, s');
    assert Owned(s') == Owned(s) + s'.pc.Reserved();
    if FirstFree(s.inUse) < QUEUE_SIZE {
      ReserveExactly(Owned(s), s.inUse, FirstFree(s.inUse));
    } else {
      assert Owned(s) + s'.pc.Reserved() == Owned(s);
    }
  }

  lemma {:induction false} FillShape(s: Tx)
    requires Shape(s) && (s.pc.Fill? || s.pc.Describe?)
    ensures Shape(DriverStep(s)) && !DriverStep(s).pc.Publish? && !DriverStep(s).pc.Reclaim?
    ensures DriverStep(s).pc.Reserved() == s.pc.Reserved()
  {}

  lemma {:induction false} FillKeepsOwn(s: Tx)
    requires OwnInv(s) && (s.pc.Fill? || s.pc.Describe?)
    ensures OwnInv(DriverStep(s))
  {
    hide Rings, Exactly, Owned;
    FillShape(s);
    SameQueue(s, DriverStep(s));
    SameRings(s, DriverStep(s));
    SameOwned(s, DriverStep(s));
  }

  lemma {:induction false} DriverKeepsOwn(s: Tx)
    requires OwnInv(s) && !s.pc.Idle?
    ensures OwnInv(DriverStep(s))
  {
    hide Rings, Exactly, Owned;
    match s.pc {
      case Reclaim(snap, p) =>
        ReclaimTest(s);
        if s.lastUsed != snap {
          ReclaimKeepsOwn(s);
        } else {
          SameRings(s, DriverStep(s));
          SameOwned(s, DriverStep(s));
        }
      case Scan(p) => ScanKeepsOwn(s);
      case WriteSlot(i, p) => WriteSlotKeepsOwn(s);
      case Publish(i, p) => PublishKeepsOwn(s);
      case _ => FillKeepsOwn(s);
    }
  }

  /** Giving back an owned descriptor unmarks exactly it. */
  lemma {:induction false} ReleaseExactly(m: multiset<nat>, m': multiset<nat>, inUse: seq<bool>, i: nat)
    requires Exactly(m, inUse) && m == m' + multiset{i}
    ensures i < |inUse| && Exactly(m', inUse[i := false])
  {
    assert m[i] >= 1;
  }

  /** The head of the used ring. */
  lemma {:induction false} ReclaimHead(s: Tx)
    requires Shape(s) && Counters(s) && Rings(s) && s.h.reclaimed < |s.h.done|
    ensures s.used[Slot(s.lastUsed, s.cfg.ring)] == s.h.done[s.h.reclaimed]
  {
    SlotTracks(s.h.reclaimed, s.cfg.ring);
  }

  lemma {:induction false} ReclaimMoves(s: Tx)
    requires Shape(s) && Counters(s) && s.pc.Reclaim? && s.h.reclaimed < s.h.target
    requires s.used[Slot(s.lastUsed, s.cfg.ring)] == s.h.done[s.h.reclaimed]
    ensures Counters(ReclaimOne(s)) && Owned(s) == Owned(ReclaimOne(s)) + multiset{s.h.done[s.h.reclaimed]}
  {
    IncTracks(s.h.reclaimed);
    hide Slot, Inc16;
    assert Unreclaimed(s) == [s.h.done[s.h.reclaimed]] + Unreclaimed(ReclaimOne(s));
  }

  lemma ReclaimRings(s: Tx)
    requires Shape(s) && Counters(s) && Rings(s) && s.pc.Reclaim? && Counters(ReclaimOne(s))
    ensures Shape(ReclaimOne(s)) && Rings(ReclaimOne(s))
  {
    hide Slot;
  }

  lemma {:induction false} ReclaimKeepsOwn(s: Tx)
    requires OwnInv(s) && s.pc.Reclaim? && s.h.reclaimed < s.h.target
    ensures OwnInv(ReclaimOne(s))
    ensures s.used[Slot(s.lastUsed, s.cfg.ring)] == s.h.done[s.h.reclaimed] < QUEUE_SIZE
  {
    hide Rings, Exactly, Owned, Slot;
    ReclaimHead(s);
    ReclaimMoves(s);
    ReleaseExactly(Owned(s), Owned(ReclaimOne(s)), s.inUse, s.h.done[s.h.reclaimed]);
    ReclaimRings(s);
  }

  lemma {:induction false} TakeHead(s: Tx)
    requires Shape(s) && Counters(s) && Rings(s) && s.h.taken < |s.h.pubIds|
    ensures s.avail[Slot(s.devIdx, s.cfg.ring)] == s.h.pubIds[s.h.taken]
  {
    SlotTracks(s.h.taken, s.cfg.ring);
  }

  lemma {:induction false} TakeMoves(s: Tx)
    requires Shape(s) && Counters(s) && s.h.taken < |s.h.pubIds|
    requires s.avail[Slot(s.devIdx, s.cfg.ring)] == s.h.pubIds[s.h.taken]
    ensures Counters(TakeStep(s)) && Owned(TakeStep(s)) == Owned(s)
    ensures Owned(s)[s.h.pubIds[s.h.taken]] >= 1
  {
    IncTracks(s.h.taken);
    hide Slot, Inc16;
    assert Pending(s) == [s.h.pubIds[s.h.taken]] + Pending(TakeStep(s));
  }

  lemma TakeRings(s: Tx)
    requires Shape(s) && Counters(s) && Rings(s) && s.h.taken < |s.h.pubIds| && Counters(TakeStep(s))
    ensures Shape(TakeStep(s)) && Rings(TakeStep(s))
  {
    hide Slot;
  }

  lemma {:induction false} TakeKeepsOwn(s: Tx)
    requires OwnInv(s) && s.devIdx != s.availIdx
    ensures OwnInv(TakeStep(s))
    ensures s.h.taken < |s.h.pubIds| && s.avail[Slot(s.devIdx, s.cfg.ring)] == s.h.pubIds[s.h.taken] < QUEUE_SIZE
  {
    hide Rings, Owned, Slot;
    TakeHead(s);
    TakeMoves(s);
    TakeRings(s);
  }

  /** A device about to complete an entry finds a free slot in the used ring: the driver has read it. */
  lemma {:induction false} UsedSlotFree(s: Tx, id: nat)
    requires OwnInv(s) && id in s.held
    ensures id < QUEUE_SIZE && |Unreclaimed(s)| < QUEUE_SIZE
    ensures forall k | s.h.reclaimed <= k < |s.h.done| :: Slot(k, s.cfg.ring) != Slot(s.usedIdx, s.cfg.ring)
  {
    Conservation(s);
    assert Owned(s)[id] >= 1;
    assert |s.held| >= 1;
    SlotTracks(|s.h.done|, s.cfg.ring);
    forall k | s.h.reclaimed <= k < |s.h.done|
      ensures Slot(k, s.cfg.ring) != Slot(s.usedIdx, s.cfg.ring)
    {
      SlotsDiffer(k, |s.h.done|, s.cfg.ring);
    }
  }

  /** A completion moves the descriptor from held to unreclaimed. */
  lemma {:induction false} CompleteMoves(s: Tx, id: nat)
    requires Shape(s) && Counters(s) && id in s.held
    ensures Counters(CompleteStep(s, id)) && Owned(CompleteStep(s, id)) == Owned(s)
  {
    IncTracks(|s.h.done|);
    assert Unreclaimed(CompleteStep(s, id)) == Unreclaimed(s) + [id];
  }

  lemma {:induction false} CompleteRings(s: Tx, id: nat)
    requires Shape(s) && Counters(s) && Rings(s) && Counters(CompleteStep(s, id))
    requires forall k | s.h.reclaimed <= k < |s.h.done| :: Slot(k, s.cfg.ring) != Slot(s.usedIdx, s.cfg.ring)
    ensures Shape(CompleteStep(s, id)) && Rings(CompleteStep(s, id))
  {
    SlotTracks(|s.h.done|, s.cfg.ring);
    hide Slot;
  }

  lemma {:induction false} CompleteKeepsOwn(s: Tx, id: nat)
    requires OwnInv(s) && id in s.held
    ensures OwnInv(CompleteStep(s, id))
  {
    hide Rings, Exactly, Owned, Slot;
    UsedSlotFree(s, id);
    CompleteMoves(s, id);
    CompleteRings(s, id);
  }

  lemma {:induction false} CallKeepsOwn(s: Tx, p: Packet)
    requires OwnInv(s) && s.pc.Idle?
    ensures OwnInv(CallStep(s, p))
  {
    assert Owned(CallStep(s, p)) == Owned(s);
  }

  lemma {:induction false} StepKeepsOwn(s: Tx, a: Action)
    requires OwnInv(s) && Enabled(s, a)
    ensures OwnInv(Step(s, a))
  {
    hide Rings, Exactly, Owned;
    match a {
      case Call(p) => CallKeepsOwn(s, p);
      case Driver => DriverKeepsOwn(s);
      case Take => TakeKeepsOwn(s);
      case Complete(id) => CompleteKeepsOwn(s, id);
    }
  }

  // ---------------------------------------------------------------- content

  /** Descriptor `id` and the memory it points at hold the frame of `p`. */
  ghost predicate Carries(s: Tx, id: nat, p: Packet)
    requires Shape(s) && id < QUEUE_SIZE
  {
    s.desc[id] == Desc(s.cfg.Addr(id), |Frame(p)|, 0, 0) && Filled(s, id, p, |Frame(p)|)
  }

  /** The first `n` bytes of the frame of `p` are in slot `id`. */
  ghost predicate Filled(s: Tx, id: nat, p: Packet, n: nat)
    requires Shape(s) && id < QUEUE_SIZE
  {
    n <= |Frame(p)| && s.cfg.Addr(id) + n <= |s.mem| && s.mem[s.cfg.Addr(id)..s.cfg.Addr(id) + n] == Frame(p)[..n]
  }

  /** The outstanding descriptors are the ones in use and already published. */
  ghost predicate JobKeys(s: Tx)
    requires Shape(s)
  {
    forall id: nat :: id in s.h.job <==> id < QUEUE_SIZE && s.inUse[id] && id !in s.pc.Reserved()
  }

  /** Every outstanding frame is in memory, whole, whoever holds it. */
  ghost predicate Intact(s: Tx)
    requires Shape(s)
  {
    forall id | id in s.h.job :: id < QUEUE_SIZE && Accepted(s.h.job[id]) && Clean(s.h.job[id]) && Carries(s, id, s.h.job[id])
  }

  /** Published entries carry the packets of the calls, and the device reads them in call order. */
  ghost predicate InOrder(s: Tx)
    requires Counters(s)
  {
    && (forall k | s.h.taken <= k < |s.h.pubIds| ::
          s.h.pubIds[k] in s.h.job && s.h.job[s.h.pubIds[k]] == s.h.pubPackets[k])
    && |s.h.wire| == s.h.taken
    && (forall k | 0 <= k < s.h.taken :: s.h.wire[k] == Frame(s.h.pubPackets[k]))
  }

  /** The frame under construction is right so far. */
  ghost predicate Building(s: Tx)
    requires Shape(s)
  {
    match s.pc
    case Idle => true
    case Reclaim(_, p) => Clean(p)
    case Scan(p) => Clean(p)
    case Fill(i, p, n) => Clean(p) && s.inUse[i] && Filled(s, i, p, n)
    case Describe(i, p) => Clean(p) && s.inUse[i] && Filled(s, i, p, |Frame(p)|)
    case WriteSlot(i, p) => Clean(p) && s.inUse[i] && Carries(s, i, p)
    case Publish(i, p) => Clean(p) && s.inUse[i] && Carries(s, i, p)
  }

  /** When every packet is clean, what the device reads is what was sent. */
  ghost predicate Content(s: Tx)
    requires OwnInv(s)
  {
    JobKeys(s) && Intact(s) && InOrder(s) && Building(s)
  }

  /** The ends of a clean packet's frame are zero. */
  lemma {:induction false} CleanEnds(p: Packet, n: nat)
    requires Clean(p) && n < |Frame(p)| && (n < HDR_LEN || MAX_PACKET <= n)
    ensures Frame(p)[n] == 0
  {
    if MAX_PACKET <= n {
      assert Frame(p)[n] == p[n - HDR_LEN];
    }
  }

  /** Two frames of different slots meet only where one ends and the other starts. */
  lemma {:induction false} FramesMeet(i: nat, n: nat, j: nat, k: nat)
    requires i != j && i * 2048 + n == j * 2048 + k && n < MAX_PACKET + HDR_LEN && k < MAX_PACKET + HDR_LEN
    ensures (n < HDR_LEN && MAX_PACKET <= k) || (k < HDR_LEN && MAX_PACKET <= n)
  {}

  /** The byte written for slot `i` leaves every other slot's frame as it is, provided both packets are clean:
      where they overlap both are zero. */
  lemma {:induction false} FillKeepsOthers(s: Tx, j: nat, q: Packet)
    requires Shape(s) && s.pc.Fill? && s.pc.n < |Frame(s.pc.packet)| && Clean(s.pc.packet)
    requires j < QUEUE_SIZE && j != s.pc.id && Accepted(q) && Clean(q) && Carries(s, j, q)
    ensures Carries(FillByte(s), j, q)
  {
    var lo, g, m := s.cfg.Addr(j), Frame(q), FillByte(s).mem;
    assert g[..|g|] == g;
    hide Clean, Frame;
    forall k | 0 <= k < |g|
      ensures m[lo + k] == g[k]
    {
      assert s.mem[lo + k] == s.mem[lo..lo + |g|][k] == g[k];
      FillKeepsByte(s, j, q, k);
    }
    assert m[lo..lo + |g|] == g;
  }

  lemma {:induction false} FillKeepsByte(s: Tx, j: nat, q: Packet, k: nat)
    requires Shape(s) && s.pc.Fill? && s.pc.n < |Frame(s.pc.packet)| && Clean(s.pc.packet)
    requires j < QUEUE_SIZE && j != s.pc.id && Accepted(q) && Clean(q) && k < |Frame(q)|
    requires s.mem[s.cfg.Addr(j) + k] == Frame(q)[k]
    ensures FillByte(s).mem[s.cfg.Addr(j) + k] == Frame(q)[k]
  {
    if s.cfg.Addr(j) + k == s.cfg.Addr(s.pc.id) + s.pc.n {
      FramesMeet(s.pc.id, s.pc.n, j, k);
      CleanEnds(s.pc.packet, s.pc.n);
      CleanEnds(q, k);
    }
  }

  lemma {:induction false} FillBuilds(s: Tx)
    requires Shape(s) && s.pc.Fill? && Building(s) && s.pc.n < |Frame(s.pc.packet)|
    ensures Building(FillByte(s))
  {
    var p, n := s.pc.packet, s.pc.n;
    var a := s.cfg.Addr(s.pc.id);
    assert FillByte(s).mem[a..a + n + 1] == s.mem[a..a + n] + [Frame(p)[n]];
    assert Frame(p)[..n + 1] == Frame(p)[..n] + [Frame(p)[n]];
  }

  lemma {:induction false} FillKeepsIntact(s: Tx)
    requires Shape(s) && s.pc.Fill? && s.pc.n < |Frame(s.pc.packet)| && Clean(s.pc.packet)
    requires JobKeys(s) && Intact(s)
    ensures Intact(FillByte(s))
  {
    forall id | id in s.h.job
      ensures Carries(FillByte(s), id, s.h.job[id])
    {
      FillKeepsOthers(s, id, s.h.job[id]);
    }
  }

  lemma {:induction false} PendingOwned(s: Tx, k: nat)
    requires OwnInv(s) && s.h.taken <= k < |s.h.pubIds|
    ensures s.h.pubIds[k] !in multiset(Unreclaimed(s))
  {
    assert Pending(s)[k - s.h.taken] == s.h.pubIds[k];
    assert s.h.pubIds[k] in multiset(Pending(s));
    assert Owned(s)[s.h.pubIds[k]] <= 1;
  }

  lemma {:induction false} ReclaimKeepsOrder(s: Tx)
    requires OwnInv(s) && InOrder(s) && s.h.reclaimed < |s.h.done|
    requires s.used[Slot(s.lastUsed, s.cfg.ring)] == s.h.done[s.h.reclaimed]
    requires OwnInv(ReclaimOne(s))
    ensures InOrder(ReclaimOne(s))
  {
    assert Unreclaimed(s)[0] == s.h.done[s.h.reclaimed];
    forall k | s.h.taken <= k < |s.h.pubIds|
      ensures s.h.pubIds[k] != s.h.done[s.h.reclaimed]
    {
      PendingOwned(s, k);
    }
  }

  /** Steps that write neither buffers nor descriptors keep the outstanding frames. */
  lemma {:induction false} SameMemory(s: Tx, s': Tx)
    requires Shape(s) && Shape(s') && Intact(s)
    requires s'.cfg == s.cfg && s'.mem == s.mem && s'.desc == s.desc
    requires forall id | id in s'.h.job :: id in s.h.job && s'.h.job[id] == s.h.job[id]
    ensures Intact(s')
  {
    hide Carries, Clean;
    forall id | id in s'.h.job
      ensures Carries(s', id, s'.h.job[id])
    {
      SameFrame(s, s', id, s.h.job[id]);
    }
  }

  lemma SameFrame(s: Tx, s': Tx, id: nat, p: Packet)
    requires Shape(s) && Shape(s') && id < QUEUE_SIZE && Carries(s, id, p)
    requires s'.cfg == s.cfg && s'.mem == s.mem && s'.desc == s.desc
    ensures Carries(s', id, p)
  {}

  lemma {:induction false} ReclaimKeepsJobs(s: Tx)
    requires Shape(s) && s.pc.Reclaim? && JobKeys(s) && Intact(s)
    ensures JobKeys(ReclaimOne(s)) && Intact(ReclaimOne(s))
  {
    SameMemory(s, ReclaimOne(s));
  }

  lemma {:induction false} ReclaimKeepsContent(s: Tx)
    requires OwnInv(s) && Content(s) && s.pc.Reclaim? && s.h.reclaimed < s.h.target
    requires OwnInv(ReclaimOne(s))
    ensures Content(ReclaimOne(s))
  {
    ReclaimKeepsOwn(s);
    ReclaimKeepsOrder(s);
    ReclaimKeepsJobs(s);
  }

  lemma {:induction false} DescribeKeepsIntact(s: Tx)
    requires Shape(s) && s.pc.Describe? && JobKeys(s) && Intact(s)
    ensures Intact(DriverStep(s))
  {
    forall id | id in s.h.job
      ensures Carries(DriverStep(s), id, s.h.job[id])
    {}
  }

  lemma {:induction false} PublishKeepsJobs(s: Tx)
    requires Shape(s) && s.pc.Publish? && JobKeys(s) && Intact(s) && Building(s)
    ensures JobKeys(DriverStep(s)) && Intact(DriverStep(s)) && Building(DriverStep(s))
  {
    var s' := DriverStep(s);
    PublishKeepsKeys(s);
    hide Carries, Clean, JobKeys;
    forall id | id in s'.h.job
      ensures Carries(s', id, s'.h.job[id])
    {
      SameFrame(s, s', id, s'.h.job[id]);
    }
  }

  lemma PublishKeepsKeys(s: Tx)
    requires Shape(s) && s.pc.Publish? && JobKeys(s) && Building(s)
    ensures Shape(DriverStep(s)) && JobKeys(DriverStep(s))
  {}

  lemma {:induction false} PublishKeepsOrder(s: Tx)
    requires Shape(s) && Counters(s) && s.pc.Publish? && JobKeys(s) && InOrder(s)
    requires Counters(DriverStep(s))
    ensures InOrder(DriverStep(s))
  {}

  lemma {:induction false} FillKeepsJobs(s: Tx)
    requires Shape(s) && (s.pc.Fill? || s.pc.Describe? || s.pc.WriteSlot?)
    requires JobKeys(s) && Intact(s) && Building(s) && Shape(DriverStep(s))
    ensures JobKeys(DriverStep(s)) && Intact(DriverStep(s)) && Building(DriverStep(s))
  {
    if s.pc.Fill? && s.pc.n < |Frame(s.pc.packet)| {
      FillBuilds(s);
      FillKeepsIntact(s);
    } else if s.pc.Describe? {
      DescribeKeepsIntact(s);
    } else {
      SameMemory(s, DriverStep(s));
    }
  }

  lemma {:induction false} ScanKeepsKeys(s: Tx)
    requires Shape(s) && s.pc.Scan? && JobKeys(s) && Shape(DriverStep(s))
    ensures JobKeys(DriverStep(s))
  {}

  lemma {:induction false} ScanStartsBuilding(s: Tx)
    requires Shape(s) && s.pc.Scan? && Building(s) && Shape(DriverStep(s))
    ensures Building(DriverStep(s))
  {}

  lemma {:induction false} ScanKeepsJobs(s: Tx)
    requires Shape(s) && s.pc.Scan?
    requires JobKeys(s) && Intact(s) && Building(s) && Shape(DriverStep(s))
    ensures JobKeys(DriverStep(s)) && Intact(DriverStep(s)) && Building(DriverStep(s))
  {
    ScanKeepsKeys(s);
    ScanStartsBuilding(s);
    hide JobKeys, Building;
    SameMemory(s, DriverStep(s));
  }

  /** Steps that neither publish, take nor reclaim keep the order of the queue. */
  lemma {:induction false} SameOrder(s: Tx, s': Tx)
    requires Counters(s) && Counters(s') && InOrder(s) && s'.h == s.h
    ensures InOrder(s')
  {}

  lemma {:induction false} ReclaimPhaseKeepsContent(s: Tx)
    requires OwnInv(s) && Content(s) && s.pc.Reclaim?
    requires OwnInv(DriverStep(s))
    ensures Content(DriverStep(s))
  {
    ReclaimTest(s);
    if s.lastUsed != s.pc.snap {
      ReclaimKeepsContent(s);
    } else {
      SameMemory(s, DriverStep(s));
    }
  }

  lemma {:induction false} DriverKeepsContent(s: Tx)
    requires OwnInv(s) && Content(s) && !s.pc.Idle?
    requires OwnInv(DriverStep(s))
    ensures Content(DriverStep(s))
  {
    hide Rings, Exactly, Owned;
    if s.pc.Reclaim? {
      ReclaimPhaseKeepsContent(s);
    } else if s.pc.Publish? {
      PublishKeepsJobs(s);
      PublishKeepsOrder(s);
    } else {
      if s.pc.Scan? { ScanKeepsJobs(s); } else { FillKeepsJobs(s); }
      SameOrder(s, DriverStep(s));
    }
  }

  lemma {:induction false} TakenFrame(s: Tx)
    requires OwnInv(s) && Content(s) && s.h.taken < |s.h.pubIds|
    ensures s.h.pubIds[s.h.taken] < QUEUE_SIZE
    ensures ReadDesc(s, DescAt(s, s.h.pubIds[s.h.taken])) == Frame(s.h.pubPackets[s.h.taken])
  {
    hide Rings, Exactly, Owned, Building, JobKeys, Clean;
    CarriedFrame(s, s.h.pubIds[s.h.taken], s.h.pubPackets[s.h.taken]);
  }

  lemma CarriedFrame(s: Tx, id: nat, p: Packet)
    requires Shape(s) && id < QUEUE_SIZE && Carries(s, id, p)
    ensures ReadDesc(s, DescAt(s, id)) == Frame(p)
  {
    assert Frame(p)[..|Frame(p)|] == Frame(p);
  }

  lemma {:induction false} DeviceKeepsJobs(s: Tx, a: Action)
    requires Shape(s) && (a.Take? || a.Complete?) && Shape(Step(s, a))
    requires JobKeys(s) && Intact(s) && Building(s)
    ensures JobKeys(Step(s, a)) && Intact(Step(s, a)) && Building(Step(s, a))
  {
    hide Intact, Building, ReadDesc;
    SameMemory(s, Step(s, a));
    SameBuilding(s, Step(s, a));
  }

  lemma SameBuilding(s: Tx, s': Tx)
    requires Shape(s) && Shape(s') && Building(s)
    requires s'.cfg == s.cfg && s'.mem == s.mem && s'.desc == s.desc && s'.inUse == s.inUse && s'.pc == s.pc
    ensures Building(s')
  {}

  lemma {:induction false} TakeKeepsOrder(s: Tx)
    requires Shape(s) && Counters(s) && Counters(TakeStep(s)) && InOrder(s) && s.h.taken < |s.h.pubIds|
    requires s.avail[Slot(s.devIdx, s.cfg.ring)] == s.h.pubIds[s.h.taken]
    requires ReadDesc(s, DescAt(s, s.h.pubIds[s.h.taken])) == Frame(s.h.pubPackets[s.h.taken])
    ensures InOrder(TakeStep(s))
  {}

  lemma {:induction false} DeviceKeepsContent(s: Tx, a: Action)
    requires OwnInv(s) && Content(s) && Enabled(s, a) && (a.Take? || a.Complete?)
    requires OwnInv(Step(s, a))
    ensures Content(Step(s, a))
  {
    DeviceKeepsJobs(s, a);
    if a.Take? {
      TakeKeepsOwn(s);
      TakenFrame(s);
      TakeKeepsOrder(s);
    }
  }

  lemma {:induction false} StepKeepsContent(s: Tx, a: Action)
    requires OwnInv(s) && Content(s) && Enabled(s, a)
    requires a.Call? && Accepted(a.packet) ==> Clean(a.packet)
    ensures OwnInv(Step(s, a)) && Content(Step(s, a))
  {
    StepKeepsOwn(s, a);
    match a {
      case Call(p) => SameMemory(s, Step(s, a));
      case Driver => DriverKeepsContent(s);
      case _ => DeviceKeepsContent(s, a);
    }
  }
}
