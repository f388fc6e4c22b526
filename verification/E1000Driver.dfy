/** `e1000_receive` and the ring setup as code over shared descriptors. `script` holds the frames that arrive
    between the driver's accesses; the device stores a frame if a descriptor is available and loses it
    otherwise. */
module E1000Driver {
  import opened Bytes
  import opened Transitions
  import opened E1000

  /** The device touched only what it owns. */
  ghost predicate DeviceMoved(s: Rx, s': Rx) {
    && s'.rxCurrent == s.rxCurrent && s'.tail == s.tail && s'.pc == s.pc
    && s'.h.sizes == s.h.sizes && s'.h.delivered == s.h.delivered && s.h.arrivals <= s'.h.arrivals
  }

  function ZeroRow(): (row: seq<byte>)
    ensures |row| == BUFFER
  {
    seq(BUFFER, _ => 0)
  }

  /** The next frame was delivered as `payload`. */
  ghost predicate DeliveredOne(h: History, h': History, size: nat, payload: seq<byte>) {
    && |h.sizes| < |h'.arrivals| && h'.sizes == h.sizes + [size]
    && Accepts(h'.arrivals[|h.sizes|], size) && payload == h'.arrivals[|h.sizes|].data
  }

  /** The next frame was dropped. */
  ghost predicate DroppedOne(h: History, h': History, size: nat) {
    |h.sizes| < |h'.arrivals| && h'.sizes == h.sizes + [size] && !Accepts(h'.arrivals[|h.sizes|], size)
  }

  /** What the caller gets for the frame `f`: its data, if its status has bit 1 and it fits the buffer, else an
      error. */
  ghost predicate Answered(f: Arrival, before: seq<byte>, r: int, n: nat, after: seq<byte>) {
    && (r == 0 <==> f.status / 2 % 2 == 1 && |f.data| <= |before|)
    && (r == 0 ==> n == |f.data| <= |before| && after == f.data + before[n..])
    && (r != 0 ==> r == -1 && after == before)
  }

  lemma {:induction false} DeliveredAnswers(
    h: History, f: Arrival, h': History, before: seq<byte>, r: int, n: nat, after: seq<byte>)
    requires |h.sizes| < |h'.arrivals| && h'.arrivals[|h.sizes|] == f && |after| == |before|
    requires r == 0 ==> n <= |before| && after[n..] == before[n..] && DeliveredOne(h, h', |before|, after[..n])
    requires r != 0 ==> r == -1 && after == before && DroppedOne(h, h', |before|)
    ensures Answered(f, before, r, n, after)
  {
    if r == 0 {
      assert after == after[..n] + after[n..];
    }
  }

  lemma {:induction false} Extend(s0: Rx, t: seq<Action>, s: Rx, a: Action, s': Rx)
    requires Initial(s0) && Runs(Next, s0, t, s) && Next(s, a, s')
    ensures Runs(Next, s0, t + [a], s') && |s'.h.sizes| <= |s'.h.arrivals|
  {
    One(Next, s, a, s');
    Append(Next, s0, t, s, [a], s');
    assert Inv(s') by { Reachable(s0, t + [a], s'); }
  }

  class Ring {
    const initialized: bool
    var rxCurrent: nat
    /** The RDT register. */
    var tail: nat
    const desc: array<Desc>
    const mem: array<seq<byte>>
    /** The RDH register, moved by the device. */
    var head: nat
    var script: seq<seq<Arrival>>
    ghost var pc: Pc
    ghost var h: History
    ghost var start: Rx
    ghost var trace: seq<Action>

    ghost function Abs(): Rx
      reads this, desc, mem
    {
      Rx(rxCurrent, tail, desc[..], mem[..], head, pc, h)
    }

    ghost predicate Valid()
      reads this, desc, mem
    {
      && desc.Length == mem.Length == NUM && |h.sizes| <= |h.arrivals|
      && Initial(start) && Runs(Next, start, trace, Abs())
    }

    /** Zeroed descriptors, head 0, tail 7. */
    constructor (initialized: bool, script: seq<seq<Arrival>>)
      ensures Valid() && pc.Idle? && trace == [] && this.initialized == initialized
      ensures fresh(desc) && fresh(mem)
    {
      var descs := new Desc[8](_ => Desc(0, 0));
      var rows := new seq<byte>[8](_ => ZeroRow());
      for i := 0 to 8
        invariant forall k | 0 <= k < 8 :: descs[k] == Desc(0, 0)
        invariant forall k | 0 <= k < 8 :: rows[k] == ZeroRow()
      {
        descs[i] := descs[i].(status := 0);
      }
      this.initialized, this.script := initialized, script;
      rxCurrent, tail, head, desc, mem := 0, 7, 0, descs, rows;
      pc, h, trace := Idle, History([], [], []), [];
      new;
      start := Abs();
    }

    lemma Sound()
      requires Valid()
      ensures Inv(Abs())
    {
      Reachable(start, trace, Abs());
    }

    lemma Shaped()
      requires Valid()
      ensures Shape(Abs())
    {
      Sound();
    }

    /** Frames arrive. */
    method Device()
      requires Valid()
      modifies this, desc, mem
      ensures Valid() && DeviceMoved(old(Abs()), Abs()) && old(trace) <= trace
    {
      if script == [] { return; }
      var burst := script[0];
      script := script[1..];
      for k := 0 to |burst|
        invariant Valid() && DeviceMoved(old(Abs()), Abs()) && old(trace) <= trace
      {
        if head != tail && burst[k].Ok() {
          Store(burst[k]);
        }
      }
    }

    method Store(f: Arrival)
      requires Valid() && head != tail && f.Ok()
      modifies this, desc, mem
      ensures Valid() && Shape(old(Abs())) && Abs() == ArriveStep(old(Abs()), f) && trace == old(trace) + [Arrive(f)]
      ensures script == old(script)
    {
      ghost var s := Abs();
      Shaped();
      mem[head] := Splice(mem[head], 0, f.data);
      desc[head] := Desc(f.status, |f.data|);
      head := (head + 1) % 8;
      h, trace := h.(arrivals := h.arrivals + [f]), trace + [Arrive(f)];
      Extend(start, old(trace), s, Arrive(f), Abs());
    }

    lemma Sees()
      requires Valid() && pc.Idle?
      ensures Shape(Abs())
      ensures DD(desc[rxCurrent].status) <==> |h.sizes| < |h.arrivals|
      ensures |h.sizes| < |h.arrivals| ==>
                desc[rxCurrent] == Desc(h.arrivals[|h.sizes|].status, |h.arrivals[|h.sizes|].data|)
    {
      Sound();
      CallSees(Abs());
    }

    /** The checks of `e1000_receive`. A frame that fails one is dropped: its descriptor is cleared and left
        behind without moving the tail. */
    method Enter(size: nat) returns (ok: bool)
      requires Valid() && pc.Idle?
      modifies this, desc
      ensures Valid() && old(trace) <= trace && h.arrivals == old(h.arrivals) && h.delivered == old(h.delivered)
      ensures ok <==> |old(h.sizes)| < |h.arrivals| && Accepts(h.arrivals[|old(h.sizes)|], size)
      ensures ok ==> pc == Copy(size, []) && h.sizes == old(h.sizes) && rxCurrent == old(rxCurrent)
      ensures !ok ==> pc.Idle? && tail == old(tail)
                      && h.sizes == if |old(h.sizes)| < |h.arrivals| then old(h.sizes) + [size] else old(h.sizes)
    {
      ghost var s := Abs();
      Sees();
      var d := desc[rxCurrent];
      ok := false;
      if DD(d.status) {
        if !EOP(d.status) || d.length > size {
          desc[rxCurrent] := d.(status := 0);
          rxCurrent := (rxCurrent + 1) % 8;
          h := h.(sizes := h.sizes + [size]);
        } else {
          ok := true;
          pc := Copy(size, []);
        }
      }
      trace := trace + [Call(size)];
      Extend(start, old(trace), s, Call(size), Abs());
    }

    lemma Copying()
      requires Valid() && pc.Copy?
      ensures Shape(Abs()) && |h.sizes| < |h.arrivals| && desc[rxCurrent].length == |h.arrivals[|h.sizes|].data|
      ensures pc.out <= h.arrivals[|h.sizes|].data && Accepts(h.arrivals[|h.sizes|], pc.size)
    {
      Sound();
      assert Stored(Abs(), |h.sizes|, h.arrivals[|h.sizes|]);
    }

    method CopyOne(buffer: array<byte>, size: nat, k: nat)
      requires Valid() && k < buffer.Length && pc == Copy(size, buffer[..k]) && rxCurrent < NUM
      requires k < desc[rxCurrent].length
      modifies this, buffer
      ensures Valid() && old(trace) <= trace && pc == Copy(size, buffer[..k + 1]) && h == old(h)
      ensures buffer[..] == old(buffer[..])[k := buffer[k]] && rxCurrent == old(rxCurrent) && tail == old(tail)
    {
      ghost var s := Abs();
      Shaped();
      buffer[k] := mem[rxCurrent][k];
      assert buffer[..k + 1] == old(buffer[..k]) + [buffer[k]];
      pc, trace := Copy(size, buffer[..k + 1]), trace + [Driver];
      Extend(start, old(trace), s, Driver, Abs());
    }

    /** The frame is copied out while more frames arrive. */
    method CopyOut(buffer: array<byte>) returns (n: nat)
      requires Valid() && pc == Copy(buffer.Length, [])
      modifies this, buffer, desc, mem
      ensures Valid() && old(trace) <= trace && n <= buffer.Length && pc == Copy(buffer.Length, buffer[..n])
      ensures h.sizes == old(h.sizes) && h.delivered == old(h.delivered) && old(h.arrivals) <= h.arrivals
      ensures |h.sizes| < |h.arrivals| && n == |h.arrivals[|h.sizes|].data|
      ensures buffer[n..] == old(buffer[..])[n..] && buffer[..n] == h.arrivals[|h.sizes|].data
      ensures rxCurrent == old(rxCurrent) && tail == old(tail)
    {
      Copying();
      n := desc[rxCurrent].length;
      assert buffer[..0] == [];
      for k := 0 to n
        invariant Valid() && old(trace) <= trace && pc == Copy(buffer.Length, buffer[..k])
        invariant buffer[n..] == old(buffer[..])[n..] && rxCurrent == old(rxCurrent) && tail == old(tail)
        invariant h.sizes == old(h.sizes) && h.delivered == old(h.delivered) && old(h.arrivals) <= h.arrivals
      {
        Copying();
        CopyOne(buffer, buffer.Length, k);
        Device();
      }
      Copying();
    }

    /** The descriptor is cleared, then lent to the device again through the tail register. */
    method Recycle(size: nat, ghost out: seq<byte>)
      requires Valid() && pc == Copy(size, out) && |h.sizes| < |h.arrivals| && |out| == |h.arrivals[|h.sizes|].data|
      modifies this, desc, mem
      ensures Valid() && old(trace) <= trace && pc.Idle? && old(h.arrivals) <= h.arrivals
      ensures tail == old(rxCurrent) && rxCurrent == (old(rxCurrent) + 1) % 8
      ensures h.sizes == old(h.sizes) + [size] && h.delivered == old(h.delivered) + [out]
    {
      Clear(size, out);
      Device();
      MoveTail();
    }

    method Clear(size: nat, ghost out: seq<byte>)
      requires Valid() && pc == Copy(size, out) && |h.sizes| < |h.arrivals| && |out| == |h.arrivals[|h.sizes|].data|
      modifies this, desc
      ensures Valid() && old(trace) <= trace && pc.SetTail? && rxCurrent == old(rxCurrent)
      ensures h == old(h).(sizes := old(h.sizes) + [size], delivered := old(h.delivered) + [out])
    {
      ghost var s := Abs();
      Copying();
      desc[rxCurrent] := desc[rxCurrent].(status := 0);
      pc, h := SetTail, h.(sizes := h.sizes + [size], delivered := h.delivered + [out]);
      trace := trace + [Driver];
      Extend(start, old(trace), s, Driver, Abs());
    }

    method MoveTail()
      requires Valid() && pc.SetTail?
      modifies this
      ensures Valid() && old(trace) <= trace && pc.Idle? && h == old(h)
      ensures tail == old(rxCurrent) && rxCurrent == (old(rxCurrent) + 1) % 8
    {
      ghost var s := Abs();
      Shaped();
      tail := rxCurrent;
      rxCurrent := (rxCurrent + 1) % 8;
      pc, trace := Idle, trace + [Driver];
      Extend(start, old(trace), s, Driver, Abs());
    }

    /** Callers have received the arrivals in order, minus exactly the dropped ones. */
    lemma DeliveredSoFar()
      requires Valid()
      ensures h.delivered == Due(h.arrivals, h.sizes)
    {
      DeliveredInOrder(start, trace, Abs());
    }

    /** Receive one frame: 0 and its length, or -1. The oldest unconsumed frame, if any, is consumed:
        delivered and its descriptor lent again exactly when it passes the checks, dropped otherwise. */
    method Receive(buffer: array<byte>) returns (r: int, n: nat)
      requires Valid() && pc.Idle?
      modifies this, buffer, desc, mem
      ensures Valid() && pc.Idle? && old(trace) <= trace && old(h.arrivals) <= h.arrivals
      ensures !initialized ==> r == -1 && h == old(h)
      ensures r == 0 ==> n <= buffer.Length && buffer[n..] == old(buffer[..])[n..] && tail == old(rxCurrent)
                         && DeliveredOne(old(h), h, buffer.Length, buffer[..n])
      ensures r != 0 ==> r == -1 && buffer[..] == old(buffer[..]) && tail == old(tail)
                         && (h.sizes == old(h.sizes) || DroppedOne(old(h), h, buffer.Length))
      ensures initialized && |old(h.sizes)| < |old(h.arrivals)| ==>
                h.sizes != old(h.sizes)
                && Answered(old(h.arrivals)[|old(h.sizes)|], old(buffer[..]), r, n, buffer[..])
    {
      hide Answered;
      ghost var h0, before := h, buffer[..];
      n := 0;
      if !initialized {
        return -1, 0;
      }
      Device();
      var ok := Enter(buffer.Length);
      if !ok {
        if |h0.sizes| < |h0.arrivals| {
          DeliveredAnswers(h0, h0.arrivals[|h0.sizes|], h, before, -1, 0, buffer[..]);
        }
        return -1, 0;
      }
      Device();
      n := Deliver(buffer);
      r := 0;
      if |h0.sizes| < |h0.arrivals| {
        DeliveredAnswers(h0, h0.arrivals[|h0.sizes|], h, before, 0, n, buffer[..]);
      }
    }

    /** The oldest frame passed the checks: copy it out and lend its descriptor again. */
    method Deliver(buffer: array<byte>) returns (n: nat)
      requires Valid() && pc == Copy(buffer.Length, [])
      requires |h.sizes| < |h.arrivals| && Accepts(h.arrivals[|h.sizes|], buffer.Length)
      modifies this, buffer, desc, mem
      ensures Valid() && old(trace) <= trace && pc.Idle? && old(h.arrivals) <= h.arrivals
      ensures n <= buffer.Length && buffer[n..] == old(buffer[..])[n..] && tail == old(rxCurrent)
      ensures DeliveredOne(old(h), h, buffer.Length, buffer[..n])
    {
      n := CopyOut(buffer);
      Recycle(buffer.Length, buffer[..n]);
    }
  }
}
