/** `virtio_net_transmit` and `virtio_net_reclaim_tx` as code over shared memory. Between any two of the
    driver's memory accesses that matter to the device, the device makes an arbitrary burst of moves; the
    bursts are given up front in `script`, so a contract holds for every interleaving. */
module VirtioTxDriver {
  import opened Bytes
  import opened Ring16
  import opened VirtioQueue
  import opened VirtioTx
  import opened VirtioTxRuns
  import opened Transitions

  /** The device touched only what it owns. */
  ghost predicate DeviceMoved(s: Tx, s': Tx) {
    && s'.cfg == s.cfg && s'.inUse == s.inUse && s'.lastUsed == s.lastUsed && s'.mem == s.mem
    && s'.desc == s.desc && s'.avail == s.avail && s'.availIdx == s.availIdx && s'.pc == s.pc
    && s'.h.pubIds == s.h.pubIds && s'.h.pubPackets == s.h.pubPackets && s'.h.job == s.h.job
    && s'.h.reclaimed == s.h.reclaimed && s'.h.target == s.h.target
    && s.h.done <= s'.h.done && s.h.wire <= s'.h.wire
  }

  /** `t` continues `t0` without a new call. */
  ghost predicate Quiet(t0: seq<Action>, t: seq<Action>) {
    t0 <= t && forall k | |t0| <= k < |t| :: !t[k].Call?
  }

  lemma {:induction false} QuietKeepsClean(t0: seq<Action>, t: seq<Action>)
    requires Quiet(t0, t) && AllClean(t0)
    ensures AllClean(t)
  {
    hide Clean;
    forall a | a in t
      ensures CallsClean(a)
    {
      var k :| 0 <= k < |t| && t[k] == a;
      if k < |t0| {
        assert t0[k] == a;
      }
    }
  }

  lemma {:induction false} QuietExtends(t0: seq<Action>, t1: seq<Action>, packet: Packet, t: seq<Action>)
    requires Quiet(t0, t1) && Quiet(t1 + [Call(packet)], t)
    ensures t0 <= t
  {
    assert t1 <= t1 + [Call(packet)];
  }

  lemma {:induction false} StaysClean(t0: seq<Action>, t1: seq<Action>, packet: Packet, t: seq<Action>)
    requires Quiet(t0, t1) && Quiet(t1 + [Call(packet)], t) && AllClean(t0) && Clean(packet)
    ensures AllClean(t)
  {
    hide Clean;
    QuietKeepsClean(t0, t1);
    var u := t1 + [Call(packet)];
    forall a | a in u
      ensures CallsClean(a)
    {
      assert a in t1 || a == Call(packet);
    }
    QuietKeepsClean(u, t);
  }

  /** Memory `m'` is `m` with ten zero bytes and the packet stored at `a`. */
  ghost predicate Stored(m: seq<byte>, a: nat, packet: Packet, m': seq<byte>) {
    && a + 10 + |packet| <= |m|
    && m' == m[..a] + [0, 0, 0, 0, 0, 0, 0, 0, 0, 0] + packet + m[a + 10 + |packet|..]
  }

  lemma {:induction false} WrittenIsStored(cfg: Config, m: seq<byte>, i: nat, p: Packet)
    requires i < QUEUE_SIZE && |m| == MEM_LEN && cfg.Addr(i) + |Frame(p)| <= MEM_LEN
    ensures Stored(m, i * 2048 + cfg.off, p, Written(cfg, m, i, p))
  {}

  /** `inUse` after the descriptors `ids` were given back. */
  function Freed(inUse: seq<bool>, ids: seq<nat>): (r: seq<bool>)
    ensures |r| == |inUse|
    ensures forall i | 0 <= i < |inUse| :: r[i] == (inUse[i] && i !in ids)
  {
    seq(|inUse|, i requires 0 <= i < |inUse| => inUse[i] && i !in ids)
  }

  lemma FrameTail(p: Packet)
    ensures forall n | 0 <= n < |p| :: Frame(p)[10 + n] == p[n]
  {}

  lemma {:induction false} FreedNone(inUse: seq<bool>)
    ensures Freed(inUse, []) == inUse
  {}

  lemma {:induction false} FreedOneMore(inUse: seq<bool>, done: seq<nat>, lo: nat, hi: nat)
    requires lo <= hi < |done| && done[hi] < |inUse|
    ensures Freed(inUse, done[lo..hi])[done[hi] := false] == Freed(inUse, done[lo..hi + 1])
  {
    assert done[lo..hi + 1] == done[lo..hi] + [done[hi]];
  }

  /** A run of the state machine, continued by one transition. */
  lemma {:induction false} Extend(s0: Tx, t: seq<Action>, s: Tx, a: Action, s': Tx)
    requires Initial(s0) && Runs(Next, s0, t, s) && Next(s, a, s')
    ensures Runs(Next, s0, t + [a], s') && Counters(s')
  {
    One(Next, s, a, s');
    Append(Next, s0, t, s, [a], s');
    assert OwnInv(s') by { DescriptorsPartitioned(s0, t + [a], s'); }
  }

  class TxQueue {
    const cfg: Config
    const initialized: bool
    const inUse: array<bool>
    var lastUsed: nat
    const mem: array<byte>
    const desc: array<Desc>
    const avail: array<nat>
    var availIdx: nat
    const used: array<nat>
    var usedIdx: nat
    var devIdx: nat
    var held: multiset<nat>
    /** What the device will do at each opportunity. */
    var script: seq<seq<Action>>
    ghost var pc: Pc
    ghost var h: History
    ghost const start: Tx
    ghost var trace: seq<Action>

    ghost function Abs(): Tx
      reads this, inUse, mem, desc, avail, used
    {
      Tx(cfg, inUse[..], lastUsed, mem[..], desc[..], avail[..], availIdx, used[..], usedIdx, devIdx, held, pc, h)
    }

    /** The memory of both sides is what some run of the state machine produced. */
    ghost predicate Valid()
      reads this, inUse, mem, desc, avail, used
    {
      && avail != used && cfg.Ok()
      && inUse.Length == desc.Length == 16 && mem.Length == MEM_LEN && avail.Length == used.Length == cfg.ring
      && h.taken <= |h.pubIds| && h.reclaimed <= |h.done|
      && start.cfg == cfg && Initial(start) && Runs(Next, start, trace, Abs())
    }

    constructor (cfg: Config, initialized: bool, script: seq<seq<Action>>)
      requires cfg.Ok()
      ensures Valid() && pc.Idle? && trace == [] && this.initialized == initialized
      ensures fresh(inUse) && fresh(mem) && fresh(desc) && fresh(avail) && fresh(used)
    {
      var flags := new bool[16](_ => false);
      var bytes := new byte[MEM_LEN](_ => 0);
      var table := new Desc[16](_ => Desc(0, 0, 0, 0));
      var ring := new nat[cfg.ring](_ => 0);
      var done := new nat[cfg.ring](_ => 0);
      this.cfg, this.initialized, this.script := cfg, initialized, script;
      inUse, mem, desc, avail, used := flags, bytes, table, ring, done;
      lastUsed, availIdx, usedIdx, devIdx, held := 0, 0, 0, 0, multiset{};
      pc, h, trace := Idle, History([], [], 0, [], [], 0, 0, map[]), [];
      start := Tx(cfg, flags[..], 0, bytes[..], table[..], ring[..], 0, done[..], 0, 0, multiset{}, Idle,
                  History([], [], 0, [], [], 0, 0, map[]));
      new;
      InitialOwned(start);
    }

    /** The device's moves: it takes available entries in order and completes entries it holds. */
    method Device()
      requires Valid()
      modifies this, used
      ensures Valid() && DeviceMoved(old(Abs()), Abs()) && Quiet(old(trace), trace)
    {
      hide Runs, Initial;
      if script == [] { return; }
      var burst := script[0];
      script := script[1..];
      for k := 0 to |burst|
        invariant Valid() && DeviceMoved(old(Abs()), Abs()) && Quiet(old(trace), trace)
      {
        match burst[k] {
          case Take => if devIdx != availIdx { TakeOne(); }
          case Complete(id) => if id in held { CompleteOne(id); }
          case _ =>
        }
      }
    }

    lemma Owned()
      requires Valid()
      ensures OwnInv(Abs())
    {
      DescriptorsPartitioned(start, trace, Abs());
    }

    lemma Shaped()
      requires Valid()
      ensures Shape(Abs())
    {
      Owned();
    }

    method TakeOne()
      requires Valid() && devIdx != availIdx
      modifies this
      ensures Valid() && Shape(old(Abs())) && Abs() == TakeStep(old(Abs())) && trace == old(trace) + [Take]
      ensures script == old(script)
    {
      hide Runs, Initial;
      ghost var s := Abs();
      Shaped();
      var id := avail[Slot(devIdx, cfg.ring)];
      h := h.(taken := h.taken + 1, wire := h.wire + [ReadDesc(s, DescAt(s, id))]);
      devIdx := Inc16(devIdx);
      held := held + multiset{id};
      trace := trace + [Take];
      Extend(start, old(trace), s, Take, Abs());
    }

    method CompleteOne(id: nat)
      requires Valid() && id in held
      modifies this, used
      ensures Valid() && Shape(old(Abs())) && Abs() == CompleteStep(old(Abs()), id) && trace == old(trace) + [Complete(id)]
      ensures script == old(script)
    {
      hide Runs, Initial;
      ghost var s := Abs();
      Shaped();
      used[Slot(usedIdx, cfg.ring)] := id;
      usedIdx := Inc16(usedIdx);
      held := held - multiset{id};
      h := h.(done := h.done + [id]);
      trace := trace + [Complete(id)];
      Extend(start, old(trace), s, Complete(id), Abs());
    }

    /** Reclaim completed descriptors: exactly those whose completion the device had published when the used
        index was sampled. */
    method ReclaimTx(packet: Packet)
      requires Valid() && pc.Idle? && Accepted(packet)
      modifies this, inUse, used
      ensures Valid() && pc == Scan(packet) && Quiet(old(trace) + [Call(packet)], trace)
      ensures mem[..] == old(mem[..]) && availIdx == old(availIdx)
      ensures h.reclaimed == old(|h.done|) && h.pubIds == old(h.pubIds) && h.pubPackets == old(h.pubPackets)
      ensures inUse[..] == Freed(old(inUse[..]), old(Unreclaimed(Abs())))
    {
      hide Runs, Initial, Freed;
      var snap := usedIdx;
      Enter(packet);
      assert h.done[h.reclaimed..h.target] == old(Unreclaimed(Abs()));
      LetDeviceRun();
      ReclaimLoop(snap, packet);
      LeaveLoop(packet);
    }

    /** The loop: up to the sampled index, while the device keeps moving. */
    method ReclaimLoop(snap: nat, packet: Packet)
      requires Valid() && pc == Reclaim(snap, packet) && h.reclaimed <= h.target <= |h.done|
      requires lastUsed != snap <==> h.reclaimed < h.target
      modifies this, inUse, used
      ensures Valid() && pc == Reclaim(lastUsed, packet) && Quiet(old(trace), trace)
      ensures availIdx == old(availIdx) && h.reclaimed == old(h.target)
      ensures h.pubIds == old(h.pubIds) && h.pubPackets == old(h.pubPackets)
      ensures inUse[..] == Freed(old(inUse[..]), old(h.done[h.reclaimed..h.target]))
    {
      hide Runs, Initial, Freed;
      ghost var flags, done, lo := inUse[..], h.done[..h.target], h.reclaimed;
      FreedNone(flags);
      assert done[lo..lo] == [] && done[lo..] == h.done[lo..h.target];
      while lastUsed != snap
        invariant Valid() && pc == Reclaim(snap, packet) && Quiet(old(trace), trace) && availIdx == old(availIdx)
        invariant h.target == |done| && done <= h.done && lo <= h.reclaimed <= |done|
        invariant h.pubIds == old(h.pubIds) && h.pubPackets == old(h.pubPackets)
        invariant inUse[..] == Freed(flags, done[lo..h.reclaimed])
        invariant lastUsed != snap <==> h.reclaimed < |done|
        decreases |done| - h.reclaimed
      {
        ReclaimNext(snap, packet, flags, done, lo);
      }
    }

    /** One turn, and what the device does before the next one. */
    method ReclaimNext(snap: nat, packet: Packet, ghost flags: seq<bool>, ghost done: seq<nat>, ghost lo: nat)
      requires Valid() && pc == Reclaim(snap, packet) && lastUsed != snap
      requires h.target == |done| && done <= h.done && lo <= h.reclaimed < |done|
      requires inUse[..] == Freed(flags, done[lo..h.reclaimed])
      modifies this, inUse, used
      ensures Valid() && pc == old(pc) && Quiet(old(trace), trace) && availIdx == old(availIdx)
      ensures h.target == |done| && done <= h.done && h.reclaimed == old(h.reclaimed) + 1
      ensures h.pubIds == old(h.pubIds) && h.pubPackets == old(h.pubPackets)
      ensures inUse[..] == Freed(flags, done[lo..h.reclaimed])
      ensures lastUsed != snap <==> h.reclaimed < |done|
    {
      hide Runs, Initial, Freed;
      ReclaimTurn(snap, packet);
      FreedOneMore(flags, done, lo, h.reclaimed - 1);
      LetDeviceRun();
    }

    /** The device moves while the driver is inside the loop. */
    method LetDeviceRun()
      requires Valid() && pc.Reclaim?
      modifies this, used
      ensures Valid() && Quiet(old(trace), trace) && availIdx == old(availIdx) && pc == old(pc)
      ensures h.target == old(h.target) && h.reclaimed == old(h.reclaimed) && old(h.done) <= h.done
      ensures h.pubIds == old(h.pubIds) && h.pubPackets == old(h.pubPackets)
      ensures lastUsed != pc.snap <==> h.reclaimed < h.target
      ensures h.reclaimed <= h.target
    {
      hide Runs, Initial;
      Device();
      LoopTest();
    }

    lemma LoopTest()
      requires Valid() && pc.Reclaim?
      ensures lastUsed != pc.snap <==> h.reclaimed < h.target
      ensures h.reclaimed <= h.target <= |h.done|
    {
      Owned();
      ReclaimTest(Abs());
    }

    /** Entry into the call: the used index is sampled. */
    method Enter(packet: Packet)
      requires Valid() && pc.Idle? && Accepted(packet)
      modifies this
      ensures Valid() && pc == Reclaim(usedIdx, packet) && trace == old(trace) + [Call(packet)]
      ensures usedIdx == old(usedIdx) && availIdx == old(availIdx) && lastUsed == old(lastUsed)
      ensures h == old(h).(target := old(|h.done|)) && h.reclaimed <= h.target
      ensures lastUsed != usedIdx <==> h.reclaimed < h.target
    {
      hide Runs, Initial;
      ghost var s := Abs();
      Shaped();
      pc, h, trace := Reclaim(usedIdx, packet), h.(target := |h.done|), trace + [Call(packet)];
      Extend(start, old(trace), s, Call(packet), Abs());
      LoopTest();
    }

    lemma NextCompletion()
      requires Valid() && pc.Reclaim? && lastUsed != pc.snap
      ensures Shape(Abs()) && h.reclaimed < |h.done|
      ensures used[Slot(lastUsed, cfg.ring)] == h.done[h.reclaimed] < 16
    {
      Owned();
      LoopTest();
      ReclaimKeepsOwn(Abs());
    }

    /** One turn of the reclaim loop. */
    method ReclaimTurn(snap: nat, packet: Packet)
      requires Valid() && pc == Reclaim(snap, packet) && lastUsed != snap
      modifies this, inUse
      ensures Valid() && pc == old(pc) && Quiet(old(trace), trace) && availIdx == old(availIdx)
      ensures lastUsed == Inc16(old(lastUsed))
      ensures old(h.reclaimed) < old(|h.done|) && old(h.done)[old(h.reclaimed)] < 16
      ensures h == old(h).(reclaimed := old(h.reclaimed) + 1, job := old(h.job) - {old(h.done)[old(h.reclaimed)]})
      ensures inUse[..] == old(inUse[..])[old(h.done)[old(h.reclaimed)] := false]
    {
      hide Runs, Initial;
      ghost var s := Abs();
      NextCompletion();
      var id := used[Slot(lastUsed, cfg.ring)];
      if id < 16 {
        inUse[id] := false;
      }
      lastUsed := Inc16(lastUsed);
      h := h.(reclaimed := h.reclaimed + 1, job := h.job - {id});
      trace := trace + [Driver];
      Extend(start, old(trace), s, Driver, Abs());
    }

    method LeaveLoop(packet: Packet)
      requires Valid() && pc == Reclaim(lastUsed, packet)
      modifies this
      ensures Valid() && pc == Scan(packet) && h == old(h) && availIdx == old(availIdx)
      ensures Quiet(old(trace), trace)
    {
      hide Runs, Initial;
      ghost var s := Abs();
      Shaped();
      pc, trace := Scan(packet), trace + [Driver];
      Extend(start, old(trace), s, Driver, Abs());
    }

    /** The first descriptor not in use, or 16. */
    method FindFree() returns (i: nat)
      requires inUse.Length == 16
      ensures i == FirstFree(inUse[..])
    {
      hide Runs, Initial;
      i := 0;
      while i < 16 && inUse[i]
        invariant 0 <= i <= 16 && FirstFree(inUse[..]) == i + FirstFree(inUse[i..])
      {
        i := i + 1;
      }
    }

    /** Scan for a free descriptor and reserve it. */
    method ReserveDescriptor(packet: Packet) returns (found: bool, i: nat)
      requires Valid() && pc == Scan(packet)
      modifies this, inUse
      ensures Valid() && Quiet(old(trace), trace) && h == old(h) && availIdx == old(availIdx)
      ensures i == FirstFree(old(inUse[..])) && found == (i < 16)
      ensures found ==> pc == Fill(i, packet, 0)
      ensures !found ==> pc.Idle? && |Pending(Abs())| + |held| + |Unreclaimed(Abs())| == QUEUE_SIZE
    {
      hide Runs, Initial;
      ghost var s := Abs();
      Shaped();
      i := FindFree();
      found := i < 16;
      if found {
        inUse[i] := true;
        pc := Fill(i, packet, 0);
      } else {
        pc := Idle;
      }
      trace := trace + [Driver];
      Extend(start, old(trace), s, Driver, Abs());
      if !found {
        Owned();
        Conservation(Abs());
      }
    }

    /** Nothing was published or reclaimed. */
    twostate predicate QueueSame()
      reads this
    {
      && Quiet(old(trace), trace) && availIdx == old(availIdx)
      && h.pubIds == old(h.pubIds) && h.pubPackets == old(h.pubPackets) && h.reclaimed == old(h.reclaimed)
    }

    /** `memset` of the header. */
    method FillHeader(i: nat, packet: Packet)
      requires Valid() && pc == Fill(i, packet, 0) && i < 16 && Accepted(packet)
      modifies this, mem, used
      ensures Valid() && pc == Fill(i, packet, 10) && QueueSame()
      ensures mem[..] == Splice(old(mem[..]), cfg.Addr(i), ZERO_HEADER)
    {
      hide Runs, Initial, Splice;
      SpliceNone(mem[..], cfg.Addr(i), ZERO_HEADER);
      for n := 0 to 10
        invariant Valid() && pc == Fill(i, packet, n) && QueueSame()
        invariant mem[..] == Splice(old(mem[..]), cfg.Addr(i), ZERO_HEADER[..n])
      {
        SpliceNext(old(mem[..]), cfg.Addr(i), ZERO_HEADER, n);
        WriteByte(i, packet, n, 0);
      }
      SpliceAll(old(mem[..]), cfg.Addr(i), ZERO_HEADER);
    }

    /** The copy loop after the header. */
    method FillPayload(i: nat, packet: Packet)
      requires Valid() && pc == Fill(i, packet, 10) && i < 16 && Accepted(packet)
      modifies this, mem, used
      ensures Valid() && pc == Fill(i, packet, |Frame(packet)|) && QueueSame()
      ensures mem[..] == Splice(old(mem[..]), cfg.Addr(i) + 10, packet)
    {
      hide Runs, Initial, Splice, Frame;
      FrameTail(packet);
      SpliceNone(mem[..], cfg.Addr(i) + 10, packet);
      for n := 0 to |packet|
        invariant Valid() && pc == Fill(i, packet, 10 + n) && QueueSame()
        invariant mem[..] == Splice(old(mem[..]), cfg.Addr(i) + 10, packet[..n])
      {
        SpliceNext(old(mem[..]), cfg.Addr(i) + 10, packet, n);
        WriteByte(i, packet, 10 + n, packet[n]);
      }
      SpliceAll(old(mem[..]), cfg.Addr(i) + 10, packet);
    }

    method FillBuffer(i: nat, packet: Packet)
      requires Valid() && pc == Fill(i, packet, 0) && i < 16 && Accepted(packet)
      modifies this, mem, used
      ensures Valid() && pc == Describe(i, packet) && QueueSame()
      ensures mem[..] == Written(cfg, old(mem[..]), i, packet)
    {
      hide Runs, Initial;
      ghost var m := mem[..];
      FillHeader(i, packet);
      FillPayload(i, packet);
      FillDone(i, packet);
      SpliceTwice(m, cfg.Addr(i), ZERO_HEADER, packet);
    }

    method FillDone(i: nat, packet: Packet)
      requires Valid() && pc == Fill(i, packet, |Frame(packet)|)
      modifies this
      ensures Valid() && pc == Describe(i, packet) && Quiet(old(trace), trace) && h == old(h) && availIdx == old(availIdx)
    {
      hide Runs, Initial;
      ghost var s := Abs();
      Shaped();
      pc, trace := Describe(i, packet), trace + [Driver];
      Extend(start, old(trace), s, Driver, Abs());
    }

    /** Store one byte; the device moves before the next. */
    method WriteByte(i: nat, packet: Packet, n: nat, b: byte)
      requires Valid() && pc == Fill(i, packet, n) && i < 16 && Accepted(packet) && n < |Frame(packet)|
      requires b == Frame(packet)[n]
      modifies this, mem, used
      ensures Valid() && pc == Fill(i, packet, n + 1) && QueueSame()
      ensures mem[..] == old(mem[..])[cfg.Addr(i) + n := b]
    {
      hide Runs, Initial;
      StoreByte(i, packet, n, b);
      Device();
    }

    method StoreByte(i: nat, packet: Packet, n: nat, b: byte)
      requires Valid() && pc == Fill(i, packet, n) && i < 16 && Accepted(packet) && n < |Frame(packet)|
      requires b == Frame(packet)[n]
      modifies this, mem
      ensures Valid() && pc == Fill(i, packet, n + 1) && Quiet(old(trace), trace)
      ensures mem[..] == old(mem[..])[cfg.Addr(i) + n := b]
      ensures h == old(h) && availIdx == old(availIdx)
    {
      hide Runs, Initial;
      ghost var s := Abs();
      Shaped();
      mem[cfg.Addr(i) + n] := b;
      pc, trace := Fill(i, packet, n + 1), trace + [Driver];
      Extend(start, old(trace), s, Driver, Abs());
    }

    method SetupDescriptor(i: nat, packet: Packet)
      requires Valid() && pc == Describe(i, packet) && i < 16
      modifies this, desc
      ensures Valid() && pc == WriteSlot(i, packet) && Quiet(old(trace), trace) && h == old(h)
      ensures mem[..] == old(mem[..]) && availIdx == old(availIdx)
      ensures desc[..] == old(desc[..])[i := Desc(i * 2048 + cfg.off, 10 + |packet|, 0, 0)]
    {
      hide Runs, Initial;
      ghost var s := Abs();
      Shaped();
      desc[i] := Desc(cfg.Addr(i), HDR_LEN + |packet|, 0, 0);
      pc, trace := WriteSlot(i, packet), trace + [Driver];
      Extend(start, old(trace), s, Driver, Abs());
    }

    method AddToRing(i: nat, packet: Packet)
      requires Valid() && pc == WriteSlot(i, packet) && i < 16
      modifies this, avail
      ensures Valid() && pc == Publish(i, packet) && Quiet(old(trace), trace) && h == old(h)
      ensures mem[..] == old(mem[..]) && availIdx == old(availIdx)
      ensures avail[..] == old(avail[..])[availIdx % cfg.ring := i]
    {
      hide Runs, Initial;
      ghost var s := Abs();
      Shaped();
      avail[Slot(availIdx, cfg.ring)] := i;
      pc, trace := Publish(i, packet), trace + [Driver];
      Extend(start, old(trace), s, Driver, Abs());
    }

    method BumpIndex(i: nat, packet: Packet)
      requires Valid() && pc == Publish(i, packet)
      modifies this
      ensures Valid() && pc.Idle? && Quiet(old(trace), trace)
      ensures availIdx == (old(availIdx) + 1) % 0x1_0000
      ensures h == old(h).(pubIds := old(h.pubIds) + [i], pubPackets := old(h.pubPackets) + [packet],
                           job := old(h.job)[i := packet])
    {
      hide Runs, Initial;
      ghost var s := Abs();
      Shaped();
      availIdx := Inc16(availIdx);
      h := h.(pubIds := h.pubIds + [i], pubPackets := h.pubPackets + [packet], job := h.job[i := packet]);
      pc, trace := Idle, trace + [Driver];
      Extend(start, old(trace), s, Driver, Abs());
    }

    /** As long as every packet handed over was clean, the device has read exactly the packets of the
        successful calls, in call order, each behind an all-zero header. */
    lemma WireSoFar()
      requires Valid() && AllClean(trace)
      ensures |h.wire| <= |h.pubPackets| && forall k | 0 <= k < |h.wire| :: h.wire[k] == [0, 0, 0, 0, 0, 0, 0, 0, 0, 0] + h.pubPackets[k]
    {
      WireInOrder(start, trace, Abs());
    }

    /** Transmit one packet: 0 on success, -1 when the packet is refused. Whatever the device does meanwhile,
        success publishes exactly this packet, and an acceptable packet is refused only while all 16
        descriptors are outstanding, every completion published before the call having been reclaimed. */
    method Transmit(packet: Packet) returns (r: int)
      requires Valid() && pc.Idle?
      modifies this, inUse, mem, desc, avail, used
      ensures Valid() && pc.Idle? && old(trace) <= trace
      ensures !initialized || |packet| == 0 || |packet| > 2048 ==>
                r == -1 && Abs() == old(Abs()) && trace == old(trace)
      ensures initialized && 1 <= |packet| <= 2048 ==> h.reclaimed >= old(|h.done|)
      ensures r == 0 ==> h.pubPackets == old(h.pubPackets) + [packet] && availIdx == (old(availIdx) + 1) % 0x1_0000
      ensures r == 0 ==> exists i | 0 <= i < 16 :: Stored(old(mem[..]), i * 2048 + cfg.off, packet, mem[..])
      ensures r != 0 ==> r == -1 && h.pubPackets == old(h.pubPackets) && availIdx == old(availIdx)
                         && mem[..] == old(mem[..])
      ensures r != 0 && initialized && 1 <= |packet| <= 2048 ==>
                |Pending(Abs())| + |held| + |Unreclaimed(Abs())| == 16
      ensures AllClean(old(trace)) && Clean(packet) ==> AllClean(trace)
    {
      hide Runs, Initial, Stored, Clean;
      if |packet| == 0 || |packet| > MAX_PACKET || !initialized {
        return -1;
      }
      Device();
      ghost var before := trace;
      ReclaimTx(packet);
      r := Send(packet);
      QuietExtends(old(trace), before, packet, trace);
      if AllClean(old(trace)) && Clean(packet) {
        StaysClean(old(trace), before, packet, trace);
      }
    }

    /** The rest of the call, once completions are reclaimed. */
    method Send(packet: Packet) returns (r: int)
      requires Valid() && pc == Scan(packet) && Accepted(packet)
      modifies this, inUse, mem, desc, avail, used
      ensures Valid() && pc.Idle? && Quiet(old(trace), trace) && h.reclaimed == old(h.reclaimed)
      ensures r == 0 ==> h.pubPackets == old(h.pubPackets) + [packet] && availIdx == Inc16(old(availIdx))
      ensures r == 0 ==> exists i | 0 <= i < 16 :: Stored(old(mem[..]), i * 2048 + cfg.off, packet, mem[..])
      ensures r != 0 ==> r == -1 && h.pubPackets == old(h.pubPackets) && availIdx == old(availIdx)
                         && mem[..] == old(mem[..])
      ensures r != 0 ==> |Pending(Abs())| + |held| + |Unreclaimed(Abs())| == QUEUE_SIZE
    {
      hide Runs, Initial, Stored, FirstFree;
      var found, i := ReserveDescriptor(packet);
      if !found {
        return -1;
      }
      FillAndPublish(i, packet);
      return 0;
    }

    /** Fill the reserved buffer and publish it, while the device moves. */
    method FillAndPublish(i: nat, packet: Packet)
      requires Valid() && pc == Fill(i, packet, 0) && i < QUEUE_SIZE && Accepted(packet)
      modifies this, mem, desc, avail, used
      ensures Valid() && pc.Idle? && Quiet(old(trace), trace) && h.reclaimed == old(h.reclaimed)
      ensures h.pubPackets == old(h.pubPackets) + [packet] && availIdx == Inc16(old(availIdx))
      ensures Stored(old(mem[..]), i * 2048 + cfg.off, packet, mem[..])
    {
      hide Runs, Initial, Written, Stored;
      Device();
      ghost var m := mem[..];
      FillBuffer(i, packet);
      WrittenIsStored(cfg, m, i, packet);
      Announce(i, packet);
    }

    /** Descriptor, ring entry, index. */
    method Announce(i: nat, packet: Packet)
      requires Valid() && pc == Describe(i, packet) && i < QUEUE_SIZE
      modifies this, desc, avail, used
      ensures Valid() && pc.Idle? && Quiet(old(trace), trace) && h.reclaimed == old(h.reclaimed)
      ensures h.pubPackets == old(h.pubPackets) + [packet] && availIdx == Inc16(old(availIdx))
      ensures mem[..] == old(mem[..])
    {
      hide Runs, Initial;
      SetupDescriptor(i, packet);
      Device();
      AddToRing(i, packet);
      Device();
      BumpIndex(i, packet);
    }
  }
}
