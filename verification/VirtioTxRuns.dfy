/** What holds of the transmit queue in every run, for every interleaving of driver and device. */
module VirtioTxRuns {
  import opened Bytes
  import opened Ring16
  import opened VirtioQueue
  import opened VirtioTx
  import opened Transitions

  lemma {:induction false} InitialOwned(s: Tx)
    requires Initial(s)
    ensures OwnInv(s) && Content(s)
  {
    assert Owned(s) == multiset{};
  }

  lemma {:induction false} RunKeepsOwn(s: Tx, t: seq<Action>, s': Tx)
    requires OwnInv(s) && Runs(Next, s, t, s')
    ensures OwnInv(s')
  {
    forall m, a, m' | OwnInv(m) && Next(m, a, m')
      ensures OwnInv(m')
    {
      StepKeepsOwn(m, a);
    }
    Invariant(Next, _ => true, OwnInv, s, t, s');
  }

  /** All packets handed to the driver in a run, and not refused for their length, are clean. */
  ghost predicate AllClean(t: seq<Action>) {
    forall a | a in t :: CallsClean(a)
  }

  ghost predicate CallsClean(a: Action) {
    a.Call? && Accepted(a.packet) ==> Clean(a.packet)
  }

  ghost predicate ContentInv(s: Tx) {
    OwnInv(s) && Content(s)
  }

  lemma {:induction false} NextKeepsContent(m: Tx, a: Action, m': Tx)
    requires ContentInv(m) && CallsClean(a) && Next(m, a, m')
    ensures ContentInv(m')
  {
    hide Content, Clean;
    StepKeepsContent(m, a);
  }

  lemma {:induction false} RunKeepsContent(s: Tx, t: seq<Action>, s': Tx)
    requires ContentInv(s) && Runs(Next, s, t, s') && AllClean(t)
    ensures ContentInv(s')
  {
    hide ContentInv, Next;
    forall m, a, m' | ContentInv(m) && CallsClean(a) && Next(m, a, m')
      ensures ContentInv(m')
    {
      NextKeepsContent(m, a, m');
    }
    Invariant(Next, CallsClean, ContentInv, s, t, s');
  }

  /** How many owners descriptor `i` has. */
  function Owners(s: Tx, i: nat): nat
    requires Counters(s)
  {
    multiset(Pending(s))[i] + s.held[i] + multiset(Unreclaimed(s))[i] + s.pc.Reserved()[i]
  }

  /** In every reachable state the 16 descriptors are partitioned: free, being filled, published, held,
      completed. None has two owners, and `tx_desc_in_use` is exactly the non-free part. */
  lemma {:induction false} DescriptorsPartitioned(s0: Tx, t: seq<Action>, s: Tx)
    requires Initial(s0) && Runs(Next, s0, t, s)
    ensures OwnInv(s)
    ensures forall i: nat :: Owners(s, i) == if i < QUEUE_SIZE && s.inUse[i] then 1 else 0
    ensures |Pending(s)| + |s.held| + |Unreclaimed(s)| + |s.pc.Reserved()| == CountTrue(s.inUse) <= QUEUE_SIZE
  {
    InitialOwned(s0);
    RunKeepsOwn(s0, t, s);
    Conservation(s);
    forall i: nat
      ensures Owners(s, i) == if i < QUEUE_SIZE && s.inUse[i] then 1 else 0
    {
      assert Owned(s)[i] == Owners(s, i);
    }
  }

  /** Through any number of index wraps, the modular distances are the queue lengths and never exceed 16,
      and no ring slot is overwritten before the other side has read it. */
  lemma {:induction false} SlotsReadBeforeReuse(s0: Tx, t: seq<Action>, s: Tx)
    requires Initial(s0) && Runs(Next, s0, t, s)
    ensures OwnInv(s)
    ensures (s.availIdx - s.devIdx) % U16 == |Pending(s)| <= 16
    ensures (s.usedIdx - s.lastUsed) % U16 == |Unreclaimed(s)| <= 16
    ensures s.pc.WriteSlot? ==>
              forall k | s.h.taken <= k < |s.h.pubIds| :: Slot(k, s.cfg.ring) != Slot(s.availIdx, s.cfg.ring)
    ensures forall id | id in s.held ::
              forall k | s.h.reclaimed <= k < |s.h.done| :: Slot(k, s.cfg.ring) != Slot(s.usedIdx, s.cfg.ring)
  {
    hide Runs, Initial, Exactly, Rings, Owned;
    DescriptorsPartitioned(s0, t, s);
    Distance(s.h.taken, |s.h.pubIds|);
    Distance(s.h.reclaimed, |s.h.done|);
    if s.pc.WriteSlot? {
      SlotTracks(|s.h.pubIds|, s.cfg.ring);
      forall k | s.h.taken <= k < |s.h.pubIds|
        ensures Slot(k, s.cfg.ring) != Slot(s.availIdx, s.cfg.ring)
      {
        SlotsDiffer(k, |s.h.pubIds|, s.cfg.ring);
      }
    }
    forall id | id in s.held
      ensures forall k | s.h.reclaimed <= k < |s.h.done| :: Slot(k, s.cfg.ring) != Slot(s.usedIdx, s.cfg.ring)
    {
      UsedSlotFree(s, id);
    }
  }

  lemma {:induction false} OutstandingOwned(s: Tx, id: nat)
    requires OwnInv(s) && (id in s.held || id in Pending(s) || id in Unreclaimed(s))
    ensures id < QUEUE_SIZE && s.inUse[id] && id !in s.pc.Reserved()
  {
    assert id in multiset(Pending(s)) || id in multiset(Unreclaimed(s)) || id in s.held;
    assert 1 <= Owned(s)[id] <= 1;
  }

  // ---------------------------------------------------------------- accesses grouped in one step

  predicate OfDevice(a: Action) {
    a.Take? || a.Complete?
  }

  /** Storing the fields of a descriptor one by one would be the same to the device: whatever stands in the reserved
      descriptor, a move of the device does not depend on it. */
  lemma {:induction false} FieldsUnseen(s: Tx, a: Action, d: Desc)
    requires OwnInv(s) && Shape(s) && s.pc.Describe? && OfDevice(a) && Enabled(s, a)
    ensures var s' := s.(desc := s.desc[s.pc.id := d]);
            Enabled(s', a) && Step(s', a) == Step(s, a).(desc := s'.desc)
  {
    hide OwnInv, Slot;
    if a.Take? {
      NextIsPending(s);
    }
  }

  /** The entry the device takes next is not the reserved one. */
  lemma {:induction false} NextIsPending(s: Tx)
    requires OwnInv(s) && s.devIdx != s.availIdx
    ensures s.avail[Slot(s.devIdx, s.cfg.ring)] !in s.pc.Reserved()
  {
    TakeKeepsOwn(s);
    hide Rings, Owned, Exactly, Slot;
    assert Pending(s)[0] == s.h.pubIds[s.h.taken];
    OutstandingOwned(s, s.h.pubIds[s.h.taken]);
  }

  /** So would reading a completion, clearing the flag and counting it: the entry stays as it is, and the flag and the
      counter are nothing to the device. */
  lemma {:induction false} ReclaimUnseen(s: Tx, a: Action, inUse: seq<bool>, lastUsed: nat)
    requires OwnInv(s) && OfDevice(a) && Enabled(s, a) && |inUse| == QUEUE_SIZE && lastUsed < U16
    ensures s.h.reclaimed < |s.h.done| ==>
              Step(s, a).used[Slot(s.lastUsed, s.cfg.ring)] == s.used[Slot(s.lastUsed, s.cfg.ring)]
    ensures var s' := s.(inUse := inUse, lastUsed := lastUsed);
            Enabled(s', a) && Step(s', a) == Step(s, a).(inUse := inUse, lastUsed := lastUsed)
  {
    if a.Complete? && s.h.reclaimed < |s.h.done| {
      UsedSlotFree(s, a.id);
      SlotTracks(s.h.reclaimed, s.cfg.ring);
      assert Slot(s.h.reclaimed, s.cfg.ring) != Slot(s.usedIdx, s.cfg.ring);
    }
  }

  lemma {:induction false} OutstandingIntact(s: Tx, id: nat)
    requires Shape(s) && JobKeys(s) && Intact(s)
    requires id < QUEUE_SIZE && s.inUse[id] && id !in s.pc.Reserved()
    ensures id in s.h.job && ReadDesc(s, s.desc[id]) == ZERO_HEADER + s.h.job[id]
  {
    var f := Frame(s.h.job[id]);
    assert f[..|f|] == f;
    assert Carries(s, id, s.h.job[id]);
  }

  /** If every packet is clean, the device reads the published packets in call order, each behind an
      all-zero header, and each stays unchanged in memory until its completion is reclaimed. */
  lemma {:induction false} WireInOrder(s0: Tx, t: seq<Action>, s: Tx)
    requires Initial(s0) && Runs(Next, s0, t, s) && AllClean(t)
    ensures OwnInv(s) && |s.h.wire| == s.h.taken <= |s.h.pubPackets|
    ensures forall k | 0 <= k < |s.h.wire| :: s.h.wire[k] == [0, 0, 0, 0, 0, 0, 0, 0, 0, 0] + s.h.pubPackets[k]
    ensures forall id | id in s.held || id in Pending(s) || id in Unreclaimed(s) ::
              id in s.h.job && id < QUEUE_SIZE && ReadDesc(s, s.desc[id]) == ZERO_HEADER + s.h.job[id]
  {
    InitialOwned(s0);
    RunKeepsContent(s0, t, s);
    forall id | id in s.held || id in Pending(s) || id in Unreclaimed(s)
      ensures id in s.h.job && id < QUEUE_SIZE && ReadDesc(s, s.desc[id]) == ZERO_HEADER + s.h.job[id]
    {
      OutstandingOwned(s, id);
      OutstandingIntact(s, id);
    }
  }

  /** A packet of acceptable length is refused exactly when all 16 descriptors are still outstanding. */
  lemma {:induction false} RefusedIffAllOutstanding(s0: Tx, t: seq<Action>, s: Tx)
    requires Initial(s0) && Runs(Next, s0, t, s) && s.pc.Scan?
    ensures OwnInv(s)
    ensures DriverStep(s).pc.Idle? <==> |Pending(s)| + |s.held| + |Unreclaimed(s)| == QUEUE_SIZE
  {
    DescriptorsPartitioned(s0, t, s);
  }

  // ---------------------------------------------------------------- packets too long for their slot

  /** Memory after the whole frame of `p` was written to slot `i`. */
  function Written(cfg: Config, mem: seq<byte>, i: nat, p: Packet): seq<byte>
    requires i < QUEUE_SIZE && |mem| == MEM_LEN && cfg.Addr(i) + |Frame(p)| <= MEM_LEN
  {
    Splice(mem, cfg.Addr(i), Frame(p))
  }

  /** The copy loop leaves every other slot untouched, whatever it holds, exactly when the packet fits. */
  lemma {:induction false} NeighboursSafeIffFits(cfg: Config, i: nat, p: Packet)
    requires cfg.Ok() && i < QUEUE_SIZE && Accepted(p)
    ensures cfg.Addr(i) + |Frame(p)| <= MEM_LEN
    ensures Fits(cfg, p) <==>
              forall mem: seq<byte>, a: nat | |mem| == MEM_LEN && a < MEM_LEN && a / 2048 != i ::
                Written(cfg, mem, i, p)[a] == mem[a]
  {
    if !Fits(cfg, p) {
      var a := i * 2048 + 2048;
      var b := Frame(p)[a - cfg.Addr(i)];
      var mem: seq<byte> := seq(MEM_LEN, _ => if b == 0 then 1 else 0);
      assert a / 2048 == i + 1;
      assert Written(cfg, mem, i, p)[a] == b != mem[a];
    }
  }
}
