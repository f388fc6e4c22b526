/** The e1000 receive ring as a state machine: eight descriptors, a head moved by the device and a tail
    moved by the driver (section 3.2.6 of the Intel 8254x Software Developer's Manual).

    The driver side follows `e1000_receive`. The device stores the next frame in the descriptor at the head
    while head and tail differ, and sets its "descriptor done" bit. */
module E1000 {
  import opened Bytes
  import opened Transitions

  const NUM: nat := 8
  const BUFFER: nat := 2048

  datatype Desc = Desc(status: nat, length: nat)

  /** Bit 0 of the status: the device is done with the descriptor. */
  predicate DD(status: nat) { status % 2 == 1 }

  /** Bit 1 of the status: the frame ends in this descriptor. */
  predicate EOP(status: nat) { status / 2 % 2 == 1 }

  /** A frame as the device stored it. */
  datatype Arrival = Arrival(status: nat, data: seq<byte>) {
    predicate Ok() { DD(status) && |data| <= BUFFER }
  }

  datatype Pc = Idle | Copy(size: nat, out: seq<byte>) | SetTail

  /** What happened so far, with unbounded counters. */
  datatype History = History(
    arrivals: seq<Arrival>,       // frames stored, in order
    sizes: seq<nat>,              // buffer sizes of the calls that consumed one
    delivered: seq<seq<byte>>)    // payloads handed to callers

  datatype Rx = Rx(
    rxCurrent: nat, tail: nat,                       // driver: next descriptor to look at, RDT
    desc: seq<Desc>, mem: seq<seq<byte>>,            // shared
    head: nat,                                       // device: RDH
    pc: Pc, h: History)

  datatype Action = Call(size: nat) | Driver | Arrive(frame: Arrival)

  ghost predicate Shape(s: Rx) {
    && |s.desc| == |s.mem| == NUM && (forall i | 0 <= i < NUM :: |s.mem[i]| == BUFFER && s.desc[i].length <= BUFFER)
    && s.rxCurrent < NUM && s.tail < NUM && s.head < NUM
    && (s.pc.Copy? ==> |s.pc.out| <= s.desc[s.rxCurrent].length <= s.pc.size)
  }

  /** Entry of `e1000_receive`: nothing there, or a frame that is dropped, or one to copy out. A dropped
      frame's descriptor is cleared but the tail stays where it is. */
  function CallStep(s: Rx, size: nat): Rx
    requires Shape(s)
  {
    var d := s.desc[s.rxCurrent];
    if !DD(d.status) then s
    else if !EOP(d.status) || d.length > size then
      s.(desc := s.desc[s.rxCurrent := d.(status := 0)], rxCurrent := (s.rxCurrent + 1) % NUM,
         h := s.h.(sizes := s.h.sizes + [size]))
    else s.(pc := Copy(size, []))
  }

  function DriverStep(s: Rx): Rx
    requires Shape(s)
  {
    match s.pc
    case Idle => s
    case Copy(size, out) =>
      var d := s.desc[s.rxCurrent];
      if |out| < d.length then s.(pc := Copy(size, out + [s.mem[s.rxCurrent][|out|]]))
      else s.(pc := SetTail, desc := s.desc[s.rxCurrent := d.(status := 0)],
              h := s.h.(sizes := s.h.sizes + [size], delivered := s.h.delivered + [out]))
    case SetTail =>
      s.(pc := Idle, tail := s.rxCurrent, rxCurrent := (s.rxCurrent + 1) % NUM)
  }

  function ArriveStep(s: Rx, f: Arrival): Rx
    requires Shape(s) && f.Ok()
  {
    s.(desc := s.desc[s.head := Desc(f.status, |f.data|)],
       mem := s.mem[s.head := Splice(s.mem[s.head], 0, f.data)],
       head := (s.head + 1) % NUM,
       h := s.h.(arrivals := s.h.arrivals + [f]))
  }

  ghost predicate Next(s: Rx, a: Action, s': Rx) {
    Shape(s) && match a
                case Call(size) => s.pc.Idle? && s' == CallStep(s, size)
                case Driver => !s.pc.Idle? && s' == DriverStep(s)
                case Arrive(f) => s.head != s.tail && f.Ok() && s' == ArriveStep(s, f)
  }

  /** After `e1000_init_context`: seven descriptors lent to the device. */
  ghost predicate Initial(s: Rx) {
    && Shape(s) && s.pc.Idle?
    && s.rxCurrent == 0 && s.head == 0 && s.tail == NUM - 1
    && (forall i | 0 <= i < NUM :: s.desc[i].status == 0)
    && s.h == History([], [], [])
  }

  // ---------------------------------------------------------------- what the ring should do

  /** The checks a frame must pass to be delivered into a buffer of `size` bytes. */
  predicate Accepts(f: Arrival, size: nat) {
    EOP(f.status) && |f.data| <= size
  }

  /** The frames due to callers: the consumed arrivals, in order, minus the refused ones. */
  function Due(arrivals: seq<Arrival>, sizes: seq<nat>): seq<seq<byte>>
    requires |sizes| <= |arrivals|
  {
    if sizes == [] then []
    else
      var n := |sizes| - 1;
      Due(arrivals, sizes[..n]) + if Accepts(arrivals[n], sizes[n]) then [arrivals[n].data] else []
  }

  /** Frames dropped since the last delivery. */
  function Dropped(arrivals: seq<Arrival>, sizes: seq<nat>): nat
    requires |sizes| <= |arrivals|
  {
    if sizes == [] then 0
    else
      var n := |sizes| - 1;
      if Accepts(arrivals[n], sizes[n]) then 0 else 1 + Dropped(arrivals, sizes[..n])
  }

  lemma {:induction false} OneMoreArrival(arrivals: seq<Arrival>, f: Arrival, sizes: seq<nat>)
    requires |sizes| <= |arrivals|
    ensures Due(arrivals + [f], sizes) == Due(arrivals, sizes)
    ensures Dropped(arrivals + [f], sizes) == Dropped(arrivals, sizes)
    decreases |sizes|
  {
    if sizes != [] {
      OneMoreArrival(arrivals, f, sizes[..|sizes| - 1]);
    }
  }

  lemma {:induction false} OneMoreConsumed(arrivals: seq<Arrival>, sizes: seq<nat>, size: nat)
    requires |sizes| < |arrivals|
    ensures Due(arrivals, sizes + [size])
         == Due(arrivals, sizes) + if Accepts(arrivals[|sizes|], size) then [arrivals[|sizes|].data] else []
    ensures Dropped(arrivals, sizes + [size])
         == if Accepts(arrivals[|sizes|], size) then 0 else 1 + Dropped(arrivals, sizes)
  {
    assert (sizes + [size])[..|sizes|] == sizes;
  }

  // ---------------------------------------------------------------- invariant

  /** Descriptors the driver is past. While the tail is still to be set, the one just delivered is not. */
  function Consumed(s: Rx): int {
    |s.h.sizes| - if s.pc.SetTail? then 1 else 0
  }

  /** Frames stored and not yet consumed. */
  function Pending(s: Rx): int {
    |s.h.arrivals| - |s.h.sizes|
  }

  /** Dropped frames since the tail last moved. */
  function Lost(s: Rx): nat
    requires |s.h.sizes| <= |s.h.arrivals|
  {
    if s.pc.SetTail? && |s.h.sizes| > 0 then Dropped(s.h.arrivals, s.h.sizes[..|s.h.sizes| - 1])
    else Dropped(s.h.arrivals, s.h.sizes)
  }

  /** The tail as an unbounded counter: one past the last descriptor lent to the device. */
  function Lent(s: Rx): int
    requires |s.h.sizes| <= |s.h.arrivals|
  {
    Consumed(s) + 7 - Lost(s)
  }

  ghost predicate Indices(s: Rx) {
    && |s.h.sizes| <= |s.h.arrivals| && 0 <= Consumed(s)
    && |s.h.arrivals| <= Lent(s)
    && s.rxCurrent == At(Consumed(s)) && s.head == At(|s.h.arrivals|) && s.tail == At(Lent(s))
    && (s.pc.SetTail? ==> Dropped(s.h.arrivals, s.h.sizes) == 0)
    && (s.pc.Copy? ==> |s.h.sizes| < |s.h.arrivals| && Accepts(s.h.arrivals[|s.h.sizes|], s.pc.size)
                       && s.pc.out <= s.h.arrivals[|s.h.sizes|].data)
  }

  /** The slot of the `k`th descriptor use. */
  function At(k: nat): (i: nat)
    ensures i < NUM
  {
    k % 8
  }

  lemma Differ(j: nat, k: nat)
    requires j < k < j + 8
    ensures At(j) != At(k)
  {}

  lemma NextAt(k: nat)
    ensures At(k + 1) == (At(k) + 1) % NUM
  {}

  /** Slot `k % 8` holds frame `f`, marked done. */
  ghost predicate Stored(s: Rx, k: nat, f: Arrival)
    requires Shape(s)
  {
    f.Ok() && s.desc[At(k)] == Desc(f.status, |f.data|) && s.mem[At(k)][..|f.data|] == f.data
  }

  /** Unconsumed frames are in their slots, and no other slot is marked done. */
  ghost predicate Slots(s: Rx)
    requires Shape(s) && Indices(s)
  {
    && (forall k | |s.h.sizes| <= k < |s.h.arrivals| :: Stored(s, k, s.h.arrivals[k]))
    && (forall k | |s.h.arrivals| <= k < |s.h.sizes| + 8 :: !DD(s.desc[At(k)].status))
  }

  ghost predicate Inv(s: Rx) {
    Shape(s) && Indices(s) && Slots(s) && s.h.delivered == Due(s.h.arrivals, s.h.sizes)
  }

  lemma {:induction false} InitialInv(s: Rx)
    requires Initial(s)
    ensures Inv(s)
  {}

  /** A call looks at the oldest unconsumed frame, if there is one. */
  lemma {:induction false} CallSees(s: Rx)
    requires Inv(s) && s.pc.Idle?
    ensures DD(s.desc[s.rxCurrent].status) <==> Pending(s) > 0
    ensures Pending(s) > 0 ==> Stored(s, |s.h.sizes|, s.h.arrivals[|s.h.sizes|])
  {
    if Pending(s) == 0 {
      assert !DD(s.desc[At(|s.h.sizes|)].status);
    } else {
      assert Stored(s, |s.h.sizes|, s.h.arrivals[|s.h.sizes|]);
    }
  }

  /** A call looks at the current descriptor exactly when bit 0 of its status is set, and starts to copy exactly when
      bit 1 is set too and the length fits the caller's buffer; a frame it does not copy is consumed. */
  lemma {:induction false} LooksIff(s: Rx, size: nat)
    requires Shape(s) && s.pc.Idle?
    ensures var (d, s') := (s.desc[s.rxCurrent], CallStep(s, size));
            && (s' != s <==> d.status % 2 == 1)
            && (s'.pc.Copy? <==> d.status % 2 == 1 && d.status / 2 % 2 == 1 && d.length <= size)
            && (d.status % 2 == 1 && !s'.pc.Copy? ==>
                  s'.desc[s.rxCurrent].status == 0 && s'.rxCurrent == (s.rxCurrent + 1) % 8 && s'.tail == s.tail)
  {
    assert s.h.sizes + [size] != s.h.sizes;
  }

  /** Once a frame is copied its status is cleared, and only then is its descriptor lent to the device again. */
  lemma {:induction false} RecyclesInOrder(s: Rx)
    requires Shape(s) && (s.pc.SetTail? || (s.pc.Copy? && |s.pc.out| == s.desc[s.rxCurrent].length))
    ensures var s' := DriverStep(s);
            && (s.pc.Copy? ==> s'.pc.SetTail? && s'.desc[s.rxCurrent] == Desc(0, s.desc[s.rxCurrent].length)
                               && s'.tail == s.tail && s'.rxCurrent == s.rxCurrent)
            && (s.pc.SetTail? ==> s'.pc.Idle? && s'.tail == s.rxCurrent && s'.rxCurrent == (s.rxCurrent + 1) % 8
                                  && s'.desc == s.desc)
  {}

  /** The device stores no more than a buffer's 2048 bytes, and says so in bit 0 of the status. */
  lemma ArrivesIff(f: Arrival)
    ensures f.Ok() <==> f.status % 2 == 1 && |f.data| <= 2048
  {}

  /** `s'` is `s` with the oldest frame's descriptor cleared. */
  ghost predicate Cleared(s: Rx, s': Rx)
    requires Shape(s) && Shape(s')
  {
    && s'.desc == s.desc[At(|s.h.sizes|) := s.desc[At(|s.h.sizes|)].(status := 0)]
    && s'.mem == s.mem && s'.h.arrivals == s.h.arrivals && |s'.h.sizes| == |s.h.sizes| + 1
  }

  lemma {:induction false} ClearKeepsFrame(s: Rx, s': Rx, k: nat, f: Arrival)
    requires Shape(s) && Shape(s') && Cleared(s, s') && |s.h.sizes| < k < |s.h.sizes| + 8 && Stored(s, k, f)
    ensures Stored(s', k, f)
  {
    Differ(|s.h.sizes|, k);
  }

  lemma {:induction false} ClearKeepsFree(s: Rx, s': Rx, k: nat)
    requires Shape(s) && Shape(s') && Cleared(s, s') && |s.h.sizes| < k <= |s.h.sizes| + 8
    requires k < |s.h.sizes| + 8 ==> !DD(s.desc[At(k)].status)
    ensures !DD(s'.desc[At(k)].status)
  {
    if k < |s.h.sizes| + 8 {
      Differ(|s.h.sizes|, k);
    }
  }

  /** Clearing the oldest frame's descriptor leaves the younger frames in place. */
  lemma {:induction false} ClearKeepsSlots(s: Rx, s': Rx)
    requires Shape(s) && Indices(s) && Slots(s) && Shape(s') && Indices(s')
    requires |s.h.sizes| < |s.h.arrivals| && Cleared(s, s')
    ensures Slots(s')
  {
    forall k | |s'.h.sizes| <= k < |s.h.arrivals|
      ensures Stored(s', k, s.h.arrivals[k])
    {
      ClearKeepsFrame(s, s', k, s.h.arrivals[k]);
    }
    forall k | |s.h.arrivals| <= k < |s'.h.sizes| + 8
      ensures !DD(s'.desc[At(k)].status)
    {
      ClearKeepsFree(s, s', k);
    }
  }

  lemma {:induction false} DropKeepsIndices(s: Rx, size: nat)
    requires Shape(s) && Indices(s) && s.pc.Idle? && Pending(s) > 0
    requires !Accepts(s.h.arrivals[|s.h.sizes|], size)
    requires s.desc[s.rxCurrent] == Desc(s.h.arrivals[|s.h.sizes|].status, |s.h.arrivals[|s.h.sizes|].data|)
    requires DD(s.h.arrivals[|s.h.sizes|].status)
    ensures Shape(CallStep(s, size)) && Indices(CallStep(s, size)) && Cleared(s, CallStep(s, size))
  {
    NextAt(|s.h.sizes|);
    OneMoreConsumed(s.h.arrivals, s.h.sizes, size);
  }

  lemma {:induction false} DropKeepsInv(s: Rx, size: nat)
    requires Inv(s) && s.pc.Idle? && Pending(s) > 0 && !Accepts(s.h.arrivals[|s.h.sizes|], size)
    ensures Inv(CallStep(s, size))
  {
    CallSees(s);
    DropKeepsIndices(s, size);
    OneMoreConsumed(s.h.arrivals, s.h.sizes, size);
    ClearKeepsSlots(s, CallStep(s, size));
  }

  lemma {:induction false} CallKeepsInv(s: Rx, size: nat)
    requires Inv(s) && s.pc.Idle?
    ensures Inv(CallStep(s, size))
  {
    CallSees(s);
    if Pending(s) > 0 && !Accepts(s.h.arrivals[|s.h.sizes|], size) {
      DropKeepsInv(s, size);
    }
  }

  lemma {:induction false} CopyKeepsInv(s: Rx)
    requires Inv(s) && s.pc.Copy? && |s.pc.out| < s.desc[s.rxCurrent].length
    ensures Inv(DriverStep(s))
  {
    var n := |s.h.sizes|;
    var f := s.h.arrivals[n];
    assert Stored(s, n, f);
    assert s.mem[At(n)][..|f.data|][|s.pc.out|] == f.data[|s.pc.out|];
    forall k | n <= k < |s.h.arrivals|
      ensures Stored(DriverStep(s), k, s.h.arrivals[k])
    {
      assert Stored(s, k, s.h.arrivals[k]);
    }
  }

  lemma {:induction false} ConsumeKeepsIndices(s: Rx)
    requires Shape(s) && Indices(s) && s.pc.Copy?
    requires |s.pc.out| == s.desc[s.rxCurrent].length == |s.h.arrivals[|s.h.sizes|].data|
    ensures Shape(DriverStep(s)) && Indices(DriverStep(s)) && Cleared(s, DriverStep(s))
  {
    OneMoreConsumed(s.h.arrivals, s.h.sizes, s.pc.size);
    assert DriverStep(s).h.sizes[..|s.h.sizes|] == s.h.sizes;
  }

  lemma {:induction false} ConsumeKeepsInv(s: Rx)
    requires Inv(s) && s.pc.Copy? && |s.pc.out| == s.desc[s.rxCurrent].length
    ensures Inv(DriverStep(s))
  {
    assert Stored(s, |s.h.sizes|, s.h.arrivals[|s.h.sizes|]);
    ConsumeKeepsIndices(s);
    ClearKeepsSlots(s, DriverStep(s));
    OneMoreConsumed(s.h.arrivals, s.h.sizes, s.pc.size);
    assert s.pc.out == s.h.arrivals[|s.h.sizes|].data;
  }

  /** Steps that store or clear nothing keep the slots. */
  lemma {:induction false} SameSlots(s: Rx, s': Rx)
    requires Shape(s) && Indices(s) && Slots(s) && Shape(s') && Indices(s')
    requires s'.desc == s.desc && s'.mem == s.mem && s'.h.arrivals == s.h.arrivals && s'.h.sizes == s.h.sizes
    ensures Slots(s')
  {
    forall k | |s.h.sizes| <= k < |s.h.arrivals|
      ensures Stored(s', k, s.h.arrivals[k])
    {
      assert Stored(s, k, s.h.arrivals[k]);
    }
  }

  lemma SameAt(k: nat)
    ensures At(k + 8) == At(k)
  {}

  lemma {:induction false} TailKeepsIndices(s: Rx)
    requires Shape(s) && Indices(s) && s.pc.SetTail?
    ensures Shape(DriverStep(s)) && Indices(DriverStep(s))
  {
    NextAt(Consumed(s));
    SameAt(Consumed(s));
  }

  lemma {:induction false} TailKeepsInv(s: Rx)
    requires Inv(s) && s.pc.SetTail?
    ensures Inv(DriverStep(s))
  {
    TailKeepsIndices(s);
    SameSlots(s, DriverStep(s));
  }

  /** The device finds the slot at its head free: no unread frame is overwritten. */
  lemma {:induction false} HeadSlotFree(s: Rx)
    requires Inv(s) && s.head != s.tail
    ensures |s.h.arrivals| < Lent(s) <= |s.h.sizes| + 7
    ensures forall k | |s.h.sizes| <= k < |s.h.arrivals| :: At(k) != s.head
  {
    forall k | |s.h.sizes| <= k < |s.h.arrivals|
      ensures At(k) != s.head
    {
      Differ(k, |s.h.arrivals|);
    }
  }

  lemma {:induction false} ArriveKeepsSlots(s: Rx, f: Arrival)
    requires Inv(s) && s.head != s.tail && f.Ok()
    requires Shape(ArriveStep(s, f)) && Indices(ArriveStep(s, f))
    ensures Slots(ArriveStep(s, f))
  {
    var n := |s.h.arrivals|;
    var s' := ArriveStep(s, f);
    HeadSlotFree(s);
    forall k | |s.h.sizes| <= k < n + 1
      ensures Stored(s', k, s'.h.arrivals[k])
    {
      if k < n {
        assert Stored(s, k, s.h.arrivals[k]);
      } else {
        SpliceHead(s.mem[s.head], f.data);
      }
    }
    forall k | n + 1 <= k < |s.h.sizes| + 8
      ensures !DD(s'.desc[At(k)].status)
    {
      Differ(n, k);
    }
  }

  lemma {:induction false} SpliceHead(m: seq<byte>, f: seq<byte>)
    requires |f| <= |m|
    ensures Splice(m, 0, f)[..|f|] == f
  {}

  lemma {:induction false} ArriveKeepsInv(s: Rx, f: Arrival)
    requires Inv(s) && s.head != s.tail && f.Ok()
    ensures Inv(ArriveStep(s, f)) && |s.h.arrivals| < Lent(s)
  {
    HeadSlotFree(s);
    NextAt(|s.h.arrivals|);
    OneMoreArrival(s.h.arrivals, f, s.h.sizes);
    if s.pc.SetTail? {
      OneMoreArrival(s.h.arrivals, f, s.h.sizes[..|s.h.sizes| - 1]);
    }
    ArriveKeepsSlots(s, f);
  }

  lemma {:induction false} NextKeepsInv(s: Rx, a: Action, s': Rx)
    requires Inv(s) && Next(s, a, s')
    ensures Inv(s')
  {
    match a {
      case Call(size) => CallKeepsInv(s, size);
      case Arrive(f) => ArriveKeepsInv(s, f);
      case Driver =>
        if s.pc.SetTail? {
          TailKeepsInv(s);
        } else if |s.pc.out| < s.desc[s.rxCurrent].length {
          CopyKeepsInv(s);
        } else {
          ConsumeKeepsInv(s);
        }
    }
  }

  // ---------------------------------------------------------------- in every run

  lemma {:induction false} Reachable(s0: Rx, t: seq<Action>, s: Rx)
    requires Initial(s0) && Runs(Next, s0, t, s)
    ensures Inv(s)
  {
    InitialInv(s0);
    forall m, a, m' | Inv(m) && Next(m, a, m')
      ensures Inv(m')
    {
      NextKeepsInv(m, a, m');
    }
    Invariant(Next, _ => true, Inv, s0, t, s);
  }

  lemma ModDistance(a: nat, b: nat)
    requires b <= a < b + 8
    ensures (At(a) - At(b)) % 8 == a - b
  {}

  lemma ModBack(c: nat, d: nat)
    requires d <= c + 7
    ensures At(c + 7 - d) == (At(c) - 1 - d) % 8
  {}

  lemma {:induction false} RegisterDistances(s: Rx)
    requires Indices(s) && s.pc.Idle?
    ensures Pending(s) == (s.head - s.rxCurrent) % 8
    ensures Lent(s) - |s.h.arrivals| == (s.tail - s.head) % 8
    ensures s.tail == (s.rxCurrent - 1 - Dropped(s.h.arrivals, s.h.sizes)) % 8
  {
    ModDistance(|s.h.arrivals|, |s.h.sizes|);
    ModDistance(Lent(s), |s.h.arrivals|);
    ModBack(|s.h.sizes|, Lost(s));
    hide At, Dropped;
  }

  /** Between calls, pending + available to the device + dropped since the last delivery = 7, and the tail
      register is `rx_current - 1 - dropped` modulo 8. */
  lemma {:induction false} RingConserved(s0: Rx, t: seq<Action>, s: Rx)
    requires Initial(s0) && Runs(Next, s0, t, s) && s.pc.Idle?
    ensures |s.h.sizes| <= |s.h.arrivals|
    ensures (s.head - s.rxCurrent) % 8 + (s.tail - s.head) % 8 + Dropped(s.h.arrivals, s.h.sizes) == 7
    ensures s.tail == (s.rxCurrent - 1 - Dropped(s.h.arrivals, s.h.sizes)) % 8
    ensures Pending(s) == (s.head - s.rxCurrent) % 8
  {
    Reachable(s0, t, s);
    RegisterDistances(s);
  }

  /** Callers receive the arrivals in order, minus exactly those that do not end in their descriptor or are
      longer than the caller's buffer. */
  lemma {:induction false} DeliveredInOrder(s0: Rx, t: seq<Action>, s: Rx)
    requires Initial(s0) && Runs(Next, s0, t, s)
    ensures |s.h.sizes| <= |s.h.arrivals| && s.h.delivered == Due(s.h.arrivals, s.h.sizes)
  {
    Reachable(s0, t, s);
  }

  /** No step of the device touches a frame that was stored and not yet consumed. */
  lemma {:induction false} UnreadSafe(s0: Rx, t: seq<Action>, s: Rx, f: Arrival, s': Rx)
    requires Initial(s0) && Runs(Next, s0, t, s) && Next(s, Arrive(f), s')
    ensures |s.h.sizes| <= |s.h.arrivals| < |s.h.sizes| + 7
    ensures forall k | |s.h.sizes| <= k < |s.h.arrivals| ::
              s'.desc[k % 8] == s.desc[k % 8] == Desc(s.h.arrivals[k].status, |s.h.arrivals[k].data|)
              && s'.mem[k % 8] == s.mem[k % 8] && s.mem[k % 8][..|s.h.arrivals[k].data|] == s.h.arrivals[k].data
  {
    Reachable(s0, t, s);
    HeadSlotFree(s);
    forall k | |s.h.sizes| <= k < |s.h.arrivals|
      ensures s'.desc[k % 8] == s.desc[k % 8] == Desc(s.h.arrivals[k].status, |s.h.arrivals[k].data|)
      ensures s'.mem[k % 8] == s.mem[k % 8] && s.mem[k % 8][..|s.h.arrivals[k].data|] == s.h.arrivals[k].data
    {
      assert Stored(s, k, s.h.arrivals[k]) && At(k) == k % 8;
    }
  }

  /** The receiver stalls for good exactly when seven frames in a row were dropped: the device has no
      descriptor left and every call finds nothing. */
  lemma {:induction false} StallsAfterSevenDrops(s0: Rx, t: seq<Action>, s: Rx)
    requires Initial(s0) && Runs(Next, s0, t, s) && s.pc.Idle?
    ensures |s.h.sizes| <= |s.h.arrivals|
    ensures Dropped(s.h.arrivals, s.h.sizes) == 7 <==> forall a, s' | Next(s, a, s') :: s' == s
  {
    RingConserved(s0, t, s);
    Reachable(s0, t, s);
    CallSees(s);
    if Dropped(s.h.arrivals, s.h.sizes) < 7 {
      if Pending(s) > 0 {
        assert Next(s, Call(0), CallStep(s, 0));
        assert CallStep(s, 0) != s;
      } else {
        var f := Arrival(1, []);
        assert Next(s, Arrive(f), ArriveStep(s, f));
        assert |ArriveStep(s, f).h.arrivals| > |s.h.arrivals|;
      }
    }
  }

  /** A frame that does not end in its descriptor. */
  const UNENDED: Arrival := Arrival(1, [])

  /** Such a frame arrives and is dropped. */
  lemma {:induction false} DropOne(s: Rx) returns (s': Rx)
    requires Inv(s) && s.pc.Idle? && Pending(s) == 0 && Dropped(s.h.arrivals, s.h.sizes) < 7
    ensures Reaches(Next, s, s') && Inv(s') && s'.pc.Idle? && Pending(s') == 0
    ensures Dropped(s'.h.arrivals, s'.h.sizes) == Dropped(s.h.arrivals, s.h.sizes) + 1
  {
    var m := ArriveStep(s, UNENDED);
    assert s.head != s.tail by { RegisterDistances(s); }
    ArriveKeepsInv(s, UNENDED);
    OneMoreArrival(s.h.arrivals, UNENDED, s.h.sizes);
    s' := CallStep(m, 0);
    CallSees(m);
    DropKeepsInv(m, 0);
    OneMoreConsumed(m.h.arrivals, m.h.sizes, 0);
    DropReaches(s);
  }

  lemma {:induction false} DropReaches(s: Rx)
    requires Shape(s) && s.pc.Idle? && s.head != s.tail && Shape(ArriveStep(s, UNENDED))
    ensures Reaches(Next, s, CallStep(ArriveStep(s, UNENDED), 0))
  {
    var m := ArriveStep(s, UNENDED);
    var s' := CallStep(m, 0);
    assert Next(s, Arrive(UNENDED), m) && Next(m, Call(0), s');
    hide Shape, ArriveStep, CallStep, Next;
    Stay(Next, s');
    Then(Next, m, Call(0), s', s');
    Then(Next, s, Arrive(UNENDED), m, s');
  }

  lemma {:induction false} DropSeven(s: Rx) returns (s': Rx)
    requires Inv(s) && s.pc.Idle? && Pending(s) == 0
    ensures Reaches(Next, s, s') && s'.pc.Idle? && |s'.h.sizes| <= |s'.h.arrivals|
    ensures Dropped(s'.h.arrivals, s'.h.sizes) == 7
    decreases 7 - Dropped(s.h.arrivals, s.h.sizes)
  {
    assert Dropped(s.h.arrivals, s.h.sizes) <= 7 by { RegisterDistances(s); }
    if Dropped(s.h.arrivals, s.h.sizes) == 7 {
      Stay(Next, s);
      s' := s;
    } else {
      var m := DropOne(s);
      s' := DropSeven(m);
      Join(Next, s, m, s');
    }
  }

  /** The stalled state is reached from every state at rest with no frame pending, the initial one included:
      there some run goes on to a state that no transition leaves. */
  lemma {:induction false} StallReached(s0: Rx, t: seq<Action>, s: Rx)
    requires Initial(s0) && Runs(Next, s0, t, s) && s.pc.Idle? && Pending(s) == 0
    ensures exists u, s' :: Runs(Next, s0, t + u, s') && s'.pc.Idle? && forall a, s'' | Next(s', a, s'') :: s'' == s'
  {
    Reachable(s0, t, s);
    var s' := DropSeven(s);
    var u :| Runs(Next, s, u, s');
    Append(Next, s0, t, s, u, s');
    StallsAfterSevenDrops(s0, t + u, s');
  }
}
