/** `virtio_net_receive` and the population of the receive ring as code over shared memory. As on the
    transmit side, `script` holds the device's moves between the driver's memory accesses. */
module VirtioRxDriver {
  import opened Bytes
  import opened Ring16
  import opened Transitions
  import opened VirtioQueue
  import opened VirtioRx
  import opened VirtioRxRuns

  /** The device touched only what it owns. */
  ghost predicate DeviceMoved(s: Rx, s': Rx) {
    && s'.cfg == s.cfg && s'.lastUsed == s.lastUsed && s'.avail == s.avail && s'.availIdx == s.availIdx
    && s'.pc == s.pc && s'.h.posted == s.h.posted && s'.h.sizes == s.h.sizes
    && s'.h.delivered == s.h.delivered && s'.h.retired == s.h.retired && s.h.done <= s'.h.done
  }

  /** Nothing was consumed, delivered or posted. */
  ghost predicate ConsumedNone(h: History, h': History) {
    h'.sizes == h.sizes && h'.delivered == h.delivered && h'.retired == h.retired && h'.posted == h.posted
  }

  /** The next completion's payload was delivered, and its buffer posted again. */
  ghost predicate DeliveredOne(h: History, h': History, size: nat, payload: seq<byte>) {
    && |h.sizes| < |h'.done| && h'.sizes == h.sizes + [size]
    && Accepts(h'.done[|h.sizes|].len, size) && |payload| == h'.done[|h.sizes|].len - HDR_LEN
    && payload == Payload(h'.done[|h.sizes|])
    && h'.delivered == h.delivered + [payload] && h'.retired == h.retired
    && h'.posted == h.posted + [h'.done[|h.sizes|].id]
  }

  /** The next completion was refused and its buffer lost. */
  ghost predicate RefusedOne(h: History, h': History, size: nat) {
    && |h.sizes| < |h'.done| && h'.sizes == h.sizes + [size]
    && !Accepts(h'.done[|h.sizes|].len, size)
    && h'.delivered == h.delivered && h'.retired == h.retired + multiset{h'.done[|h.sizes|].id}
    && h'.posted == h.posted
  }

  /** What the caller gets for the completion `c`, whose buffer held `c.content`: the bytes behind the 10-byte header,
      if the reported length covers a header and fits a 2048-byte buffer and the caller's; else an error. */
  ghost predicate Answered(c: Completion, before: seq<byte>, r: int, n: nat, after: seq<byte>) {
    && (r == 0 <==> 10 <= c.len <= 2048 && c.len - 10 <= |before|)
    && (r == 0 ==> c.len <= |c.content| && n == c.len - 10 <= |before| && after == c.content[10..c.len] + before[n..])
    && (r != 0 ==> r == -1 && after == before)
  }

  /** What one call did, in terms of the completion it was about. */
  lemma {:induction false} DeliveredAnswers(
    h: History, c: Completion, h': History, before: seq<byte>, r: int, n: nat, after: seq<byte>)
    requires |h.sizes| < |h'.done| && h'.done[|h.sizes|] == c && |c.content| == MAX_PACKET
    requires |after| == |before|
    requires r == 0 ==> n <= |before| && after[n..] == before[n..] && DeliveredOne(h, h', |before|, after[..n])
    requires r != 0 ==> r == -1 && after == before && RefusedOne(h, h', |before|)
    ensures Answered(c, before, r, n, after)
  {
    if r == 0 {
      assert after == after[..n] + after[n..];
    }
  }

  /** A run of the state machine, continued by one transition. */
  lemma {:induction false} Extend(s0: Rx, t: seq<Action>, s: Rx, a: Action, s': Rx)
    requires Initial(s0) && Runs(Next, s0, t, s) && Next(s, a, s')
    ensures Runs(Next, s0, t + [a], s') && Counters(s')
  {
    One(Next, s, a, s');
    Append(Next, s0, t, s, [a], s');
    assert OwnInv(s') by { BuffersConserved(s0, t + [a], s'); }
  }

  class RxQueue {
    const cfg: Config
    const initialized: bool
    var lastUsed: nat
    const avail: array<nat>
    var availIdx: nat
    const mem: array<byte>
    const used: array<Used>
    var usedIdx: nat
    var devIdx: nat
    var held: multiset<nat>
    /** The receive descriptors: written once, when the ring is populated. */
    const desc: array<Desc>
    /** What the device will do at each opportunity. */
    var script: seq<seq<Action>>
    ghost var pc: Pc
    ghost var h: History
    ghost var start: Rx
    ghost var trace: seq<Action>

    ghost function Abs(): Rx
      reads this, avail, mem, used
    {
      Rx(cfg, lastUsed, avail[..], availIdx, mem[..], used[..], usedIdx, devIdx, held, pc, h)
    }

    /** The memory of both sides is what some run of the state machine produced. */
    ghost predicate Valid()
      reads this, avail, mem, used, desc
    {
      && cfg.Ok() && mem.Length == MEM_LEN && avail.Length == used.Length == cfg.ring && desc.Length == 16
      && (forall i | 0 <= i < 16 :: desc[i] == Desc(cfg.Addr(i), MAX_PACKET - cfg.off, 2, 0))
      && h.taken <= |h.posted| && |h.sizes| <= |h.done|
      && start.cfg == cfg && Initial(start) && Runs(Next, start, trace, Abs())
    }

    /** Zeroed memory, then one writable descriptor and one available entry per buffer. */
    constructor (cfg: Config, initialized: bool, script: seq<seq<Action>>)
      requires cfg.Ok()
      ensures Valid() && pc.Idle? && trace == [] && this.initialized == initialized
      ensures fresh(avail) && fresh(mem) && fresh(used) && fresh(desc)
      ensures availIdx == 16 && forall i | 0 <= i < 16 ::
                avail[i] == i && desc[i] == Desc(i * 2048 + cfg.off, 2048 - cfg.off, 2, 0)
    {
      var ring := new nat[cfg.ring](_ => 0);
      var bytes := new byte[MEM_LEN](_ => 0);
      var done := new Used[cfg.ring](_ => Used(0, 0));
      var table := new Desc[16](_ => Desc(0, 0, 0, 0));
      var idx := 0;
      for i := 0 to 16
        invariant idx == i && forall k | 0 <= k < i :: ring[k] == k
        invariant forall k | 0 <= k < i :: table[k] == Desc(cfg.Addr(k), MAX_PACKET - cfg.off, 2, 0)
      {
        table[i] := Desc(cfg.Addr(i), MAX_PACKET - cfg.off, 2, 0);
        ring[Slot(idx, cfg.ring)] := i;
        idx := Inc16(idx);
      }
      this.cfg, this.initialized, this.script := cfg, initialized, script;
      avail, mem, used, desc := ring, bytes, done, table;
      lastUsed, availIdx, usedIdx, devIdx, held := 0, idx, 0, 0, multiset{};
      pc, trace := Idle, [];
      h := History(Numbers(QUEUE_SIZE), 0, [], [], [], multiset{});
      new;
      start := Abs();
    }

    lemma Owned()
      requires Valid()
      ensures OwnInv(Abs())
    {
      BuffersConserved(start, trace, Abs());
    }

    lemma Shaped()
      requires Valid()
      ensures Shape(Abs())
    {
      Owned();
    }

    /** The device's moves: it takes posted buffers in order, writes to those it holds, completes them. */
    method Device()
      requires Valid()
      modifies this, mem, used
      ensures Valid() && DeviceMoved(old(Abs()), Abs()) && old(trace) <= trace
    {
      hide Runs, Initial;
      if script == [] { return; }
      var burst := script[0];
      script := script[1..];
      for k := 0 to |burst|
        invariant Valid() && DeviceMoved(old(Abs()), Abs()) && old(trace) <= trace
      {
        match burst[k] {
          case Take => if devIdx != availIdx { TakeOne(); }
          case Write(id, at, b) => if id in held { WriteOne(id, at, b); }
          case Complete(id, len) => if id in held { CompleteOne(id, len); }
          case _ =>
        }
      }
    }

    method TakeOne()
      requires Valid() && devIdx != availIdx
      modifies this
      ensures Valid() && Shape(old(Abs())) && Abs() == TakeStep(old(Abs())) && trace == old(trace) + [Take]
      ensures script == old(script)
    {
      hide Runs, Initial;
      ghost var s := Abs();
      Shaped();
      held := held + multiset{avail[Slot(devIdx, cfg.ring)]};
      devIdx := Inc16(devIdx);
      h := h.(taken := h.taken + 1);
      trace := trace + [Take];
      Extend(start, old(trace), s, Take, Abs());
    }

    method WriteOne(id: nat, at: nat, b: byte)
      requires Valid() && id in held
      modifies this, mem
      ensures Valid() && Shape(old(Abs())) && Abs() == WriteStep(old(Abs()), id, at, b)
      ensures trace == old(trace) + [Write(id, at, b)] && script == old(script)
    {
      hide Runs, Initial;
      ghost var s := Abs();
      Shaped();
      if id < 16 && at < MAX_PACKET - cfg.off {
        mem[cfg.Addr(id) + at] := b;
      }
      trace := trace + [Write(id, at, b)];
      Extend(start, old(trace), s, Write(id, at, b), Abs());
    }

    method CompleteOne(id: nat, len: nat)
      requires Valid() && id in held
      modifies this, used
      ensures Valid() && Shape(old(Abs())) && Abs() == CompleteStep(old(Abs()), id, len)
      ensures trace == old(trace) + [Complete(id, len)] && script == old(script)
    {
      hide Runs, Initial;
      ghost var s := Abs();
      Shaped();
      used[Slot(usedIdx, cfg.ring)] := Used(id, len);
      usedIdx := Inc16(usedIdx);
      held := held - multiset{id};
      h := h.(done := h.done + [Completion(id, len, Buffer(cfg, mem[..], id))]);
      trace := trace + [Complete(id, len)];
      Extend(start, old(trace), s, Complete(id, len), Abs());
    }

    /** Is there a new completion? The used index is sampled once. */
    method Enter(size: nat) returns (some: bool)
      requires Valid() && pc.Idle?
      modifies this
      ensures Valid() && h == old(h) && old(trace) <= trace
      ensures some <==> |h.sizes| < |h.done|
      ensures pc == if some then Fetch(size) else Idle
    {
      hide Runs, Initial;
      ghost var s := Abs();
      Owned();
      CallKeepsOwn(s, size);
      some := usedIdx != lastUsed;
      if some {
        pc := Fetch(size);
      }
      trace := trace + [Call(size)];
      Extend(start, old(trace), s, Call(size), Abs());
    }

    /** Read and check the head entry; a bad one is consumed without giving the buffer back. */
    method FetchEntry(size: nat) returns (ok: bool, id: nat, len: nat)
      requires Valid() && pc == Fetch(size)
      modifies this
      ensures Valid() && old(trace) <= trace && |old(h.sizes)| < |h.done| && h.done == old(h.done)
      ensures id == h.done[|old(h.sizes)|].id < 16 && len == h.done[|old(h.sizes)|].len
      ensures ok <==> Accepts(len, size)
      ensures ok ==> pc == Copy(id, len, size, []) && h == old(h)
      ensures !ok ==> pc.Idle? && h == old(h).(sizes := old(h.sizes) + [size], retired := old(h.retired) + multiset{id})
    {
      hide Runs, Initial;
      ghost var s := Abs();
      HeadNow();
      var e := used[Slot(lastUsed, cfg.ring)];
      id, len := e.id, e.len;
      if id >= 16 || len == 0 || len > MAX_PACKET || len < HDR_LEN || len - HDR_LEN > size {
        ok := false;
        lastUsed := Inc16(lastUsed);
        pc, h := Idle, h.(sizes := h.sizes + [size], retired := h.retired + multiset{id});
      } else {
        ok := true;
        pc := Copy(id, len, size, []);
      }
      trace := trace + [Driver];
      Extend(start, old(trace), s, Driver, Abs());
    }

    lemma HeadNow()
      requires Valid() && pc.Fetch?
      ensures Shape(Abs()) && |h.sizes| < |h.done| && h.done[|h.sizes|].id < 16
      ensures used[Slot(lastUsed, cfg.ring)] == Used(h.done[|h.sizes|].id, h.done[|h.sizes|].len)
    {
      Owned();
      HeadEntry(Abs());
    }

    /** One byte of `memcpy`. */
    method CopyOne(buffer: array<byte>, id: nat, len: nat, size: nat, k: nat)
      requires Valid() && id < 16 && Accepts(len, size) && k < len - HDR_LEN && len - HDR_LEN <= buffer.Length
      requires pc == Copy(id, len, size, buffer[..k]) && buffer != mem
      modifies this, buffer
      ensures Valid() && old(trace) <= trace && h == old(h)
      ensures pc == Copy(id, len, size, buffer[..k + 1]) && buffer[..] == old(buffer[..])[k := buffer[k]]
    {
      hide Runs, Initial;
      ghost var s := Abs();
      Shaped();
      buffer[k] := mem[cfg.Addr(id) + HDR_LEN + k];
      assert buffer[..k + 1] == old(buffer[..k]) + [buffer[k]];
      pc, trace := Copy(id, len, size, buffer[..k + 1]), trace + [Driver];
      Extend(start, old(trace), s, Driver, Abs());
    }

    method Consume(id: nat, len: nat, size: nat, ghost out: seq<byte>)
      requires Valid() && pc == Copy(id, len, size, out) && |out| == len - HDR_LEN
      modifies this
      ensures Valid() && old(trace) <= trace && pc == Repost(id)
      ensures h == old(h).(sizes := old(h.sizes) + [size], delivered := old(h.delivered) + [out])
    {
      hide Runs, Initial;
      ghost var s := Abs();
      Shaped();
      lastUsed := Inc16(lastUsed);
      pc, h := Repost(id), h.(sizes := h.sizes + [size], delivered := h.delivered + [out]);
      trace := trace + [Driver];
      Extend(start, old(trace), s, Driver, Abs());
    }

    /** The device has read the entry that the driver overwrites next. */
    lemma SlotRead()
      requires Valid() && pc.Repost?
      ensures forall k | h.taken <= k < |h.posted| :: Slot(k, cfg.ring) != Slot(availIdx, cfg.ring)
    {
      Owned();
      forall k | h.taken <= k < |h.posted|
        ensures Slot(k, cfg.ring) != Slot(availIdx, cfg.ring)
      {
        RepostSlotFree(Abs(), k);
      }
    }

    method RepostEntry(id: nat)
      requires Valid() && pc == Repost(id)
      modifies this, avail
      ensures Valid() && old(trace) <= trace && pc == Bump(id) && h == old(h)
      ensures avail[..] == old(avail[..])[availIdx % cfg.ring := id] && availIdx == old(availIdx)
      ensures forall k | h.taken <= k < |h.posted| :: Slot(k, cfg.ring) != availIdx % cfg.ring
    {
      hide Runs, Initial;
      ghost var s := Abs();
      Shaped();
      SlotRead();
      avail[Slot(availIdx, cfg.ring)] := id;
      pc, trace := Bump(id), trace + [Driver];
      Extend(start, old(trace), s, Driver, Abs());
    }

    method BumpIndex(id: nat)
      requires Valid() && pc == Bump(id)
      modifies this
      ensures Valid() && old(trace) <= trace && pc.Idle? && availIdx == (old(availIdx) + 1) % 0x1_0000
      ensures h == old(h).(posted := old(h.posted) + [id])
    {
      hide Runs, Initial;
      ghost var s := Abs();
      Shaped();
      availIdx := Inc16(availIdx);
      pc, h, trace := Idle, h.(posted := h.posted + [id]), trace + [Driver];
      Extend(start, old(trace), s, Driver, Abs());
    }

    /** What the driver has copied is what the device had completed. */
    lemma Copied()
      requires Valid() && pc.Copy? && |pc.out| == pc.len - HDR_LEN
      ensures |h.sizes| < |h.done| && pc.out == Payload(h.done[|h.sizes|])
    {
      Reachable(start, trace, Abs());
      CopiedWhole(Abs());
    }

    /** Copy the payload out, byte by byte, while the device keeps moving. */
    method CopyOut(buffer: array<byte>, id: nat, len: nat)
      requires Valid() && id < 16 && Accepts(len, buffer.Length) && pc == Copy(id, len, buffer.Length, [])
      requires buffer != mem
      modifies this, buffer, mem, used
      ensures Valid() && old(trace) <= trace && pc == Copy(id, len, buffer.Length, buffer[..len - HDR_LEN])
      ensures buffer[len - HDR_LEN..] == old(buffer[len - HDR_LEN..])
      ensures h.sizes == old(h.sizes) && h.delivered == old(h.delivered) && h.posted == old(h.posted)
      ensures h.retired == old(h.retired) && old(h.done) <= h.done
      ensures |h.sizes| < |h.done| && buffer[..len - HDR_LEN] == Payload(h.done[|h.sizes|])
    {
      hide Runs, Initial;
      assert buffer[..0] == [];
      for k := 0 to len - HDR_LEN
        invariant Valid() && old(trace) <= trace && pc == Copy(id, len, buffer.Length, buffer[..k])
        invariant buffer[len - HDR_LEN..] == old(buffer[len - HDR_LEN..])
        invariant h.sizes == old(h.sizes) && h.delivered == old(h.delivered) && h.posted == old(h.posted)
        invariant h.retired == old(h.retired) && old(h.done) <= h.done
      {
        CopyOne(buffer, id, len, buffer.Length, k);
        Device();
      }
      Copied();
    }

    /** Callers have received the payloads of the accepted completions, in completion order, headers stripped. */
    lemma DeliveredSoFar()
      requires Valid()
      ensures h.delivered == Due(h.done, h.sizes)
    {
      DeliveredInOrder(start, trace, Abs());
    }

    /** Receive one packet: 0 and its length, or -1. A call with a new completion consumes exactly one. It is
        delivered, and its buffer posted again, exactly when its length passes the checks; otherwise its
        buffer is retired. Without a new completion nothing changes. */
    method Receive(buffer: array<byte>) returns (r: int, n: nat)
      requires Valid() && pc.Idle?
      requires buffer != mem
      modifies this, buffer, avail, mem, used
      ensures Valid() && pc.Idle? && old(trace) <= trace && old(h.done) <= h.done
      ensures !initialized ==> r == -1 && h == old(h)
      ensures r == 0 ==> n <= buffer.Length && buffer[n..] == old(buffer[..])[n..]
                         && DeliveredOne(old(h), h, buffer.Length, buffer[..n])
      ensures r != 0 ==> r == -1 && buffer[..] == old(buffer[..])
                         && (ConsumedNone(old(h), h) || RefusedOne(old(h), h, buffer.Length))
      ensures initialized && |old(h.sizes)| < |old(h.done)| ==> !ConsumedNone(old(h), h)
      ensures initialized && |old(h.sizes)| < |old(h.done)| ==>
                Answered(old(h.done)[|old(h.sizes)|], old(buffer[..]), r, n, buffer[..])
    {
      hide Runs, Initial;
      hide Answered;
      n := 0;
      if !initialized {
        return -1, 0;
      }
      ghost var h0, before := h, buffer[..];
      WaitingWhole();
      Device();
      var some := Enter(buffer.Length);
      if !some {
        return -1, 0;
      }
      Device();
      r, n := Process(buffer);
      if |h0.sizes| < |h0.done| {
        DeliveredAnswers(h0, h0.done[|h0.sizes|], h, before, r, n, buffer[..]);
      }
    }

    /** A completion that waits has a whole buffer. */
    lemma WaitingWhole()
      requires Valid()
      ensures |h.sizes| < |h.done| ==> |h.done[|h.sizes|].content| == MAX_PACKET
    {
      Reachable(start, trace, Abs());
      if |h.sizes| < |h.done| {
        HeadEntry(Abs());
      }
    }

    /** The rest of the call, once a completion was seen. */
    method Process(buffer: array<byte>) returns (r: int, n: nat)
      requires Valid() && pc == Fetch(buffer.Length)
      requires buffer != mem
      modifies this, buffer, avail, mem, used
      ensures Valid() && pc.Idle? && old(trace) <= trace && old(h.done) <= h.done
      ensures r == 0 ==> n <= buffer.Length && buffer[n..] == old(buffer[..])[n..]
                         && DeliveredOne(old(h), h, buffer.Length, buffer[..n])
      ensures r != 0 ==> r == -1 && buffer[..] == old(buffer[..]) && RefusedOne(old(h), h, buffer.Length)
    {
      hide Runs, Initial;
      var ok, id, len := FetchEntry(buffer.Length);
      if !ok {
        return -1, 0;
      }
      Device();
      Deliver(buffer, id, len);
      return 0, len - HDR_LEN;
    }

    /** The head entry passed the checks: copy it out, consume it, post its buffer again. */
    method Deliver(buffer: array<byte>, id: nat, len: nat)
      requires Valid() && id < 16 && Accepts(len, buffer.Length) && pc == Copy(id, len, buffer.Length, [])
      requires buffer != mem
      modifies this, buffer, avail, mem, used
      ensures Valid() && old(trace) <= trace && pc.Idle? && old(h.done) <= h.done
      ensures buffer[len - HDR_LEN..] == old(buffer[len - HDR_LEN..])
      ensures h.delivered == old(h.delivered) + [buffer[..len - HDR_LEN]]
      ensures |old(h.sizes)| < |h.done| && buffer[..len - HDR_LEN] == Payload(h.done[|old(h.sizes)|])
      ensures h.sizes == old(h.sizes) + [buffer.Length] && h.retired == old(h.retired)
      ensures h.posted == old(h.posted) + [id]
    {
      hide Runs, Initial;
      CopyOut(buffer, id, len);
      Consume(id, len, buffer.Length, buffer[..len - HDR_LEN]);
      Device();
      RepostEntry(id);
      Device();
      BumpIndex(id);
    }
  }
}
