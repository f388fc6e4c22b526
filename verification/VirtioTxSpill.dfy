/** Packets whose end spills into the next slot: exactly the unclean ones can alter a frame on the wire. */
module VirtioTxSpill {
  import opened Bytes
  import opened Ring16
  import opened VirtioQueue
  import opened VirtioTx
  import opened VirtioTxRuns
  import opened Transitions

  /** Calls hand over a one-byte packet or `p`. */
  predicate OneOr(p: Packet, a: Action) {
    a.Call? ==> a.packet == [1] || a.packet == p
  }

  /** The transitions of a run whose calls do. */
  ghost function Offering(p: Packet): (Tx, Action, Tx) -> bool {
    (s: Tx, a: Action, s': Tx) => Next(s, a, s') && OneOr(p, a)
  }

  lemma {:induction false} Onward(q: Packet, s: Tx, a: Action, m: Tx, s': Tx)
    requires Next(s, a, m) && OneOr(q, a) && Reaches(Offering(q), m, s')
    ensures Reaches(Offering(q), s, s')
  {
    hide Next, Reaches;
    Then(Offering(q), s, a, m, s');
  }

  lemma {:induction false} FillEnds(q: Packet, s: Tx)
    requires Shape(s) && s.pc.Fill? && s.pc.n == |Frame(s.pc.packet)|
    ensures Reaches(Offering(q), s, s.(pc := Describe(s.pc.id, s.pc.packet)))
  {
    var last := s.(pc := Describe(s.pc.id, s.pc.packet));
    Stay(Offering(q), last);
    Onward(q, s, Driver, last, last);
  }

  lemma {:induction false} FillNext(s: Tx)
    requires Shape(s) && s.pc.Fill? && s.pc.n < |Frame(s.pc.packet)|
    ensures Next(s, Driver, FillByte(s)) && Shape(FillByte(s))
  {}

  /** Running the copy loop to its end, undisturbed; `m` is the memory before the loop. */
  lemma {:induction false} FillReaches(q: Packet, s: Tx, m: seq<byte>, i: nat, p: Packet, n: nat)
    requires Shape(s) && s.pc == Fill(i, p, n) && |m| == MEM_LEN
    requires s.mem == Splice(m, s.cfg.Addr(i), Frame(p)[..n])
    ensures Reaches(Offering(q), s, s.(mem := Written(s.cfg, m, i, p), pc := Describe(i, p)))
    decreases |Frame(p)| - n
  {
    if n < |Frame(p)| {
      assert FillByte(s).mem == Splice(m, s.cfg.Addr(i), Frame(p)[..n + 1]) by {
        SpliceNext(m, s.cfg.Addr(i), Frame(p), n);
      }
      FillNext(s);
      FillReaches(q, FillByte(s), m, i, p, n + 1);
      Onward(q, s, Driver, FillByte(s), s.(mem := Written(s.cfg, m, i, p), pc := Describe(i, p)));
    } else {
      SpliceAll(m, s.cfg.Addr(i), Frame(p));
      FillEnds(q, s);
    }
  }

  /** Where a call ends up that finds descriptor `i` free and runs undisturbed from the scan on. */
  function Sent(s: Tx, i: nat, p: Packet): Tx
    requires Shape(s) && Accepted(p) && i < QUEUE_SIZE
  {
    s.(inUse := s.inUse[i := true], pc := Idle,
       mem := Written(s.cfg, s.mem, i, p),
       desc := s.desc[i := Desc(s.cfg.Addr(i), |Frame(p)|, 0, 0)],
       avail := s.avail[Slot(s.availIdx, s.cfg.ring) := i],
       availIdx := Inc16(s.availIdx),
       h := s.h.(pubIds := s.h.pubIds + [i], pubPackets := s.h.pubPackets + [p], job := s.h.job[i := p]))
  }

  lemma {:induction false} PublishReaches(q: Packet, s: Tx, i: nat, p: Packet)
    requires Shape(s) && s.pc == Describe(i, p)
    ensures Reaches(Offering(q), s, s.(pc := Idle,
                   desc := s.desc[i := Desc(s.cfg.Addr(i), |Frame(p)|, 0, 0)],
                   avail := s.avail[Slot(s.availIdx, s.cfg.ring) := i],
                   availIdx := Inc16(s.availIdx),
                   h := s.h.(pubIds := s.h.pubIds + [i], pubPackets := s.h.pubPackets + [p], job := s.h.job[i := p])))
  {
    var s1 := s.(desc := s.desc[i := Desc(s.cfg.Addr(i), |Frame(p)|, 0, 0)], pc := WriteSlot(i, p));
    var s2 := s1.(avail := s.avail[Slot(s.availIdx, s.cfg.ring) := i], pc := Publish(i, p));
    var s3 := DriverStep(s2);
    Stay(Offering(q), s3);
    Onward(q, s2, Driver, s3, s3);
    Onward(q, s1, Driver, s2, s3);
    Onward(q, s, Driver, s1, s3);
  }

  /** From the scan on, undisturbed. */
  lemma {:induction false} ScanReaches(q: Packet, s: Tx, p: Packet)
    requires Shape(s) && s.pc == Scan(p) && FirstFree(s.inUse) < QUEUE_SIZE
    ensures Reaches(Offering(q), s, Sent(s, FirstFree(s.inUse), p))
  {
    var i := FirstFree(s.inUse);
    var s1 := s.(inUse := s.inUse[i := true], pc := Fill(i, p, 0));
    var s2 := s1.(mem := Written(s.cfg, s.mem, i, p), pc := Describe(i, p));
    SpliceNone(s.mem, s.cfg.Addr(i), Frame(p));
    FillReaches(q, s1, s.mem, i, p, 0);
    PublishReaches(q, s2, i, p);
    Join(Offering(q), s1, s2, Sent(s, i, p));
    Onward(q, s, Driver, s1, Sent(s, i, p));
  }

  lemma {:induction false} LoopExitNext(s: Tx, p: Packet)
    requires Shape(s) && s.pc == Reclaim(s.lastUsed, p)
    ensures Next(s, Driver, s.(pc := Scan(p))) && Shape(s.(pc := Scan(p)))
  {}

  lemma {:induction false} CallNext(s: Tx, p: Packet)
    requires Shape(s) && s.pc.Idle? && Accepted(p)
    ensures Next(s, Call(p), CallStep(s, p)) && Shape(CallStep(s, p))
  {}

  /** A whole call, undisturbed, when the reclaim loop ends at once. */
  lemma {:induction false} CallReaches(q: Packet, s: Tx, p: Packet)
    requires p == [1] || p == q
    requires Shape(s) && s.pc.Idle? && Accepted(p) && s.lastUsed == s.usedIdx && FirstFree(s.inUse) < QUEUE_SIZE
    requires s.h.target == |s.h.done|
    ensures Reaches(Offering(q), s, Sent(s, FirstFree(s.inUse), p))
  {
    var s1 := CallStep(s, p);
    var s2 := s1.(pc := Scan(p));
    var last := Sent(s, FirstFree(s.inUse), p);
    assert Next(s, Call(p), s1) && Shape(s1) by { CallNext(s, p); }
    assert Next(s1, Driver, s2) && Shape(s2) by { LoopExitNext(s1, p); }
    assert Reaches(Offering(q), s2, last) by { ScanReaches(q, s2, p); }
    assert Reaches(Offering(q), s1, last) by { Onward(q, s1, Driver, s2, last); }
    Onward(q, s, Call(p), s1, last);
  }

  lemma {:induction false} ReclaimNext(s: Tx)
    requires Shape(s) && s.pc.Reclaim? && s.pc.snap == Inc16(s.lastUsed)
    ensures Next(s, Driver, ReclaimOne(s)) && Shape(ReclaimOne(s)) && ReclaimOne(s).lastUsed == s.pc.snap
  {}

  /** What a call that reused descriptor `id` leaves behind. */
  ghost predicate Resent(s: Tx, id: nat, p: Packet, s': Tx)
    requires Shape(s) && id < QUEUE_SIZE && Accepted(p)
  {
    && Shape(s') && s'.cfg == s.cfg && s'.devIdx == s.devIdx && s'.availIdx == Inc16(s.availIdx)
    && s'.avail == s.avail[Slot(s.availIdx, s.cfg.ring) := id]
    && s'.mem == Written(s.cfg, s.mem, id, p)
    && s'.desc == s.desc[id := Desc(s.cfg.Addr(id), |Frame(p)|, 0, 0)]
    && s'.h.wire == s.h.wire && s'.h.pubPackets == s.h.pubPackets + [p]
  }

  lemma {:induction false} ResentBySent(s: Tx, id: nat, p: Packet)
    requires Shape(s) && s.pc.Reclaim? && Accepted(p) && id < QUEUE_SIZE && Shape(ReclaimOne(s))
    ensures Resent(s, id, p, Sent(ReclaimOne(s), id, p))
  {}

  /** The reclaim loop with one completion to go, then the rest of the call, undisturbed. */
  lemma {:induction false} LoopReaches(q: Packet, s: Tx, id: nat, p: Packet)
    requires Shape(s) && s.pc == Reclaim(Inc16(s.lastUsed), p) && id < QUEUE_SIZE
    requires s.used[Slot(s.lastUsed, s.cfg.ring)] == id && FirstFree(s.inUse[id := false]) == id
    ensures Shape(ReclaimOne(s)) && Reaches(Offering(q), s, Sent(ReclaimOne(s), id, p))
  {
    var s1 := ReclaimOne(s);
    var s2 := s1.(pc := Scan(p));
    var last := Sent(s1, id, p);
    assert Next(s, Driver, s1) && Shape(s1) && s1.pc.snap == s1.lastUsed by { ReclaimNext(s); }
    assert Next(s1, Driver, s2) && Shape(s2) by { LoopExitNext(s1, p); }
    assert Reaches(Offering(q), s2, last) by { ScanReaches(q, s2, p); }
    assert Reaches(Offering(q), s1, last) by { Onward(q, s1, Driver, s2, last); }
    Onward(q, s, Driver, s1, last);
  }

  /** A whole call, undisturbed, that first reclaims the one completion of descriptor `id`. */
  lemma {:induction false} ReclaimingCallReaches(q: Packet, s: Tx, id: nat, p: Packet) returns (last: Tx)
    requires p == [1] || p == q
    requires Shape(s) && s.pc.Idle? && Accepted(p) && s.usedIdx == Inc16(s.lastUsed) && id < QUEUE_SIZE
    requires s.used[Slot(s.lastUsed, s.cfg.ring)] == id && FirstFree(s.inUse[id := false]) == id
    ensures Reaches(Offering(q), s, last) && Resent(s, id, p, last)
  {
    var s1 := s.(pc := Reclaim(s.usedIdx, p), h := s.h.(target := |s.h.done|));
    assert Next(s, Call(p), s1) && Shape(s1) by { CallNext(s, p); }
    LoopReaches(q, s1, id, p);
    last := Sent(ReclaimOne(s1), id, p);
    assert Resent(s, id, p, last) by { ResentBySent(s1, id, p); }
    assert Reaches(Offering(q), s, last) by { Onward(q, s, Call(p), s1, last); }
  }

  /** The device takes the next entry and completes it at once. */
  lemma {:induction false} ServeReaches(q: Packet, s: Tx, id: nat)
    requires Shape(s) && s.devIdx != s.availIdx && s.avail[Slot(s.devIdx, s.cfg.ring)] == id
    ensures Reaches(Offering(q), s, CompleteStep(TakeStep(s), id))
  {
    var s1 := TakeStep(s);
    var s2 := CompleteStep(s1, id);
    assert Reaches(Offering(q), s1, s2) by {
      Stay(Offering(q), s2);
      Onward(q, s1, Complete(id), s2, s2);
    }
    assert Next(s, Take, s1);
    Onward(q, s, Take, s1, s2);
  }

  /** The device has one entry to take, that of a one-byte packet in slot 1. */
  ghost predicate Poised(s: Tx) {
    && Shape(s) && s.devIdx == 1 && s.availIdx != 1 && s.avail[1] == 1
    && s.desc[1] == Desc(s.cfg.Addr(1), 11, 0, 0) && |s.h.wire| == 1
  }

  /** Two one-byte packets are sent, and the device served the first. */
  ghost predicate TwoSent(s: Tx) {
    && Poised(s) && s.pc.Idle? && s.availIdx == 2
    && s.usedIdx == Inc16(s.lastUsed) && s.used[Slot(s.lastUsed, s.cfg.ring)] == 0
    && FirstFree(s.inUse[0 := false]) == 0 && s.h.pubPackets == [[1], [1]]
  }

  /** At rest, with nothing to reclaim. */
  ghost predicate Reclaimed(s: Tx) {
    Shape(s) && s.pc.Idle? && s.lastUsed == s.usedIdx && s.h.target == |s.h.done|
  }

  lemma {:induction false} InitialFacts(s0: Tx)
    requires Initial(s0)
    ensures Reclaimed(s0) && s0.devIdx == s0.lastUsed == s0.availIdx == 0
    ensures s0.h.wire == [] && s0.h.pubPackets == []
    ensures FirstFree(s0.inUse) == 0 && FirstFree(s0.inUse[0 := true]) == 1
    ensures FirstFree(s0.inUse[0 := true][1 := true][0 := false]) == 0
  {
    hide FirstFree;
    FreeAt(s0.inUse, 0);
    FreeAt(s0.inUse[0 := true], 1);
    FreeAt(s0.inUse[0 := true][1 := true][0 := false], 0);
  }

  lemma FreeAt(inUse: seq<bool>, k: nat)
    requires k < |inUse| && !inUse[k] && forall j | 0 <= j < k :: inUse[j]
    ensures FirstFree(inUse) == k
  {}

  /** The first two packets. */
  lemma {:induction false} SentFacts(s: Tx, i: nat)
    requires Reclaimed(s) && s.devIdx == s.lastUsed == 0 && s.availIdx == i < 2
    ensures var s' := Sent(s, i, [1]);
            && Reclaimed(s') && s'.cfg == s.cfg && s'.devIdx == s'.lastUsed == 0 && s'.availIdx == i + 1
            && s'.avail == s.avail[i := i] && s'.desc == s.desc[i := Desc(s.cfg.Addr(i), 11, 0, 0)]
            && s'.inUse == s.inUse[i := true] && s'.h.wire == s.h.wire && s'.h.pubPackets == s.h.pubPackets + [[1]]
  {
    hide FirstFree, Splice;
  }

  lemma {:induction false} ServedFacts(s2: Tx)
    requires Reclaimed(s2) && s2.devIdx == s2.lastUsed == 0 && s2.availIdx == 2 && s2.avail[0] == 0 && s2.avail[1] == 1
    requires s2.desc[1] == Desc(s2.cfg.Addr(1), 11, 0, 0) && FirstFree(s2.inUse[0 := false]) == 0
    requires s2.h.wire == [] && s2.h.pubPackets == [[1], [1]]
    ensures s2.devIdx != s2.availIdx && s2.avail[Slot(s2.devIdx, s2.cfg.ring)] == 0
    ensures TwoSent(CompleteStep(TakeStep(s2), 0)) && CompleteStep(TakeStep(s2), 0).cfg == s2.cfg
  {}

  lemma {:induction false} TwoShortReaches(q: Packet, s0: Tx) returns (s: Tx)
    requires Initial(s0)
    ensures Reaches(Offering(q), s0, s) && TwoSent(s) && s.cfg == s0.cfg
  {
    InitialFacts(s0);
    SentFacts(s0, 0);
    var s1 := Sent(s0, 0, [1]);
    SentFacts(s1, 1);
    var s2 := Sent(s1, 1, [1]);
    hide Sent, CompleteStep, TakeStep, TwoSent, Initial, Shape;
    ServedFacts(s2);
    s := CompleteStep(TakeStep(s2), 0);
    assert Reaches(Offering(q), s0, s) by {
      assert Reaches(Offering(q), s0, s1) by { CallReaches(q, s0, [1]); }
      assert Reaches(Offering(q), s1, s2) by { CallReaches(q, s1, [1]); }
      assert Reaches(Offering(q), s0, s2) by { Join(Offering(q), s0, s1, s2); }
      assert Reaches(Offering(q), s2, s) by { ServeReaches(q, s2, 0); }
      Join(Offering(q), s0, s2, s);
    }
  }

  lemma {:induction false} TakeReaches(q: Packet, s: Tx)
    requires Shape(s) && s.devIdx != s.availIdx
    ensures Reaches(Offering(q), s, TakeStep(s))
  {
    Stay(Offering(q), TakeStep(s));
    Onward(q, s, Take, TakeStep(s), TakeStep(s));
  }

  /** The device reads slot 1 differently from what was published there. */
  lemma {:induction false} TakesOverwritten(s: Tx, n: nat)
    requires Poised(s) && n < HDR_LEN && s.mem[s.cfg.Addr(1) + n] != 0
    ensures Next(s, Take, TakeStep(s)) && TakeStep(s).h.pubPackets == s.h.pubPackets
    ensures |TakeStep(s).h.wire| == 2 && TakeStep(s).h.wire[1] != Frame([1])
  {
    var a := s.cfg.Addr(1);
    var f := s.mem[a..a + 11];
    assert f[n] != 0 && Frame([1])[n] == 0;
    assert ReadDesc(s, s.desc[1]) == f;
    assert TakeStep(s).h.wire == s.h.wire + [f];
  }

  lemma FrameAt(p: Packet, k: nat)
    requires k < |p|
    ensures Frame(p)[HDR_LEN + k] == p[k]
  {}

  /** Where byte `k` of a packet in slot `i` falls. */
  lemma {:induction false} SpillsOver(cfg: Config, mem: seq<byte>, i: nat, p: Packet, k: nat, at: nat)
    requires cfg.Ok() && |mem| == MEM_LEN && i < QUEUE_SIZE && Accepted(p) && k < |p|
    requires at == cfg.Addr(i) + (HDR_LEN + k)
    ensures at < MEM_LEN && Written(cfg, mem, i, p)[at] == p[k]
  {
    hide Splice, Frame;
    FrameAt(p, k);
    SpliceAt(mem, cfg.Addr(i), Frame(p), at);
  }

  /** What slot 1 looks like once an overlong packet was sent from slot 0. */
  lemma {:induction false} SpiltByte(s: Tx, id: nat, p: Packet, k: nat, s': Tx, at: nat)
    requires Shape(s) && id < QUEUE_SIZE && Accepted(p) && k < |p| && Resent(s, id, p, s')
    requires at == s.cfg.Addr(id) + (HDR_LEN + k)
    ensures at < |s'.mem| && s'.mem[at] == p[k]
  {
    hide Written, Slot, Frame;
    SpillsOver(s.cfg, s.mem, id, p, k, at);
  }

  lemma {:induction false} ResentQueue(s: Tx, p: Packet, s': Tx)
    requires Shape(s) && s.cfg.Ok() && |s.avail| == s.cfg.ring && |s.desc| == QUEUE_SIZE
    requires Accepted(p) && Resent(s, 0, p, s') && s.availIdx == 2
    ensures s'.availIdx == 3 && s'.avail[1] == s.avail[1] && s'.desc[1] == s.desc[1]
  {
    hide Written, Frame, Shape, Slot, Inc16;
    ThirdSlot(s.cfg.ring);
    Third();
  }

  lemma ThirdSlot(r: nat)
    requires RingSize(r)
    ensures Slot(2, r) == 2
  {}

  lemma Third()
    ensures Inc16(2) == 3
  {}

  lemma {:induction false} ResentPoised(s: Tx, p: Packet, s': Tx)
    requires Poised(s) && s.availIdx == 2 && s.h.pubPackets == [[1], [1]] && Accepted(p) && Resent(s, 0, p, s')
    ensures Poised(s') && s'.cfg == s.cfg && s'.h.pubPackets == [[1], [1], p]
  {
    ResentQueue(s, p, s');
    hide Written, Frame, Slot, Inc16;
  }

  /** The state before the device takes the second one-byte packet. */
  lemma {:induction false} UncleanSent(s0: Tx, p: Packet, k: nat, at: nat) returns (s: Tx)
    requires Initial(s0) && Accepted(p) && k < |p| && at == s0.cfg.Addr(0) + (HDR_LEN + k)
    ensures Reaches(Offering(p), s0, s) && Poised(s) && s.cfg == s0.cfg && s.h.pubPackets == [[1], [1], p]
    ensures at < |s.mem| && s.mem[at] == p[k]
  {
    hide Reaches, Initial, Resent, FirstFree, Frame;
    var s1 := TwoShortReaches(p, s0);
    s := ReclaimingCallReaches(p, s1, 0, p);
    ResentPoised(s1, p, s);
    SpiltByte(s1, 0, p, k, s, at);
    Join(Offering(p), s0, s1, s);
  }

  lemma {:induction false} OfferingRuns(p: Packet, s: Tx, t: seq<Action>, s': Tx)
    requires Runs(Offering(p), s, t, s')
    ensures Runs(Next, s, t, s') && forall a | a in t :: OneOr(p, a)
    decreases |t|
  {
    if t != [] {
      var m :| Offering(p)(s, t[0], m) && Runs(Offering(p), m, t[1..], s');
      OfferingRuns(p, m, t[1..], s');
      assert forall a | a in t :: a == t[0] || a in t[1..];
    }
  }

  /** For every accepted packet that is not clean there is a run in which it alters another frame: after two
      one-byte packets, of which the first completes, its end falls on the header of the second before the
      device reads it. */
  lemma {:induction false} UncleanCorruptsWire(s0: Tx, p: Packet) returns (t: seq<Action>, s: Tx)
    requires Initial(s0) && Accepted(p) && !Clean(p)
    ensures Runs(Next, s0, t, s) && forall a | a in t :: OneOr(p, a)
    ensures |s.h.wire| == 2 && s.h.pubPackets == [[1], [1], p] && s.h.wire[1] != Frame([1])
  {
    var k: nat :| MAX_PACKET - HDR_LEN <= k < |p| && p[k] != 0;
    hide Initial, Clean, Reaches, Next, Offering, Runs;
    var at := s0.cfg.Addr(0) + (HDR_LEN + k);
    var s1 := UncleanSent(s0, p, k, at);
    hide Poised;
    s := TakeOverwritten(s0, p, s1, k - (MAX_PACKET - HDR_LEN), at);
    t := TraceOf(p, s0, s);
  }

  lemma {:induction false} TakeOverwritten(s0: Tx, p: Packet, s1: Tx, n: nat, at: nat) returns (s: Tx)
    requires Poised(s1) && Reaches(Offering(p), s0, s1) && s1.h.pubPackets == [[1], [1], p]
    requires n < HDR_LEN && at == s1.cfg.Addr(0) + (MAX_PACKET + n) && at < |s1.mem| && s1.mem[at] != 0
    ensures Reaches(Offering(p), s0, s)
    ensures |s.h.wire| == 2 && s.h.pubPackets == [[1], [1], p] && s.h.wire[1] != Frame([1])
  {
    s := TakeStep(s1);
    TakesOverwritten(s1, n);
    hide Reaches;
    TakeReaches(p, s1);
    Join(Offering(p), s0, s1, s);
  }

  lemma {:induction false} TraceOf(p: Packet, s0: Tx, s: Tx) returns (t: seq<Action>)
    requires Reaches(Offering(p), s0, s)
    ensures Runs(Next, s0, t, s) && forall a | a in t :: OneOr(p, a)
  {
    t :| Runs(Offering(p), s0, t, s);
    OfferingRuns(p, s0, t, s);
  }

  // ---------------------------------------------------------------- the exact condition

  /** What the device has read so far is what was published, in order, framed. */
  ghost predicate WireRight(s: Tx) {
    |s.h.wire| <= |s.h.pubPackets| && forall k | 0 <= k < |s.h.wire| :: s.h.wire[k] == Frame(s.h.pubPackets[k])
  }

  /** Accepted packets are clean, or `p`. */
  ghost predicate AllCleanBut(p: Packet, t: seq<Action>) {
    forall a | a in t && a.Call? && Accepted(a.packet) :: Clean(a.packet) || a.packet == p
  }

  /** Every run that hands over clean packets and `p`, in any order and number, has the wire right. */
  ghost predicate SafeBesideClean(cfg: Config, p: Packet) {
    forall s0, t, s | Initial(s0) && s0.cfg == cfg && Runs(Next, s0, t, s) && AllCleanBut(p, t) :: WireRight(s)
  }

  lemma {:induction false} CleanIsSafe(cfg: Config, p: Packet)
    requires Accepted(p) && Clean(p)
    ensures SafeBesideClean(cfg, p)
  {
    forall s0, t, s | Initial(s0) && s0.cfg == cfg && Runs(Next, s0, t, s) && AllCleanBut(p, t)
      ensures WireRight(s)
    {
      WireInOrder(s0, t, s);
    }
  }

  /** The state after initialisation. */
  function Fresh(cfg: Config): Tx {
    Tx(cfg, seq(QUEUE_SIZE, _ => false), 0, seq(MEM_LEN, _ => 0), seq(QUEUE_SIZE, _ => Desc(0, 0, 0, 0)),
       seq(cfg.ring, _ => 0), 0, seq(cfg.ring, _ => 0), 0, 0, multiset{}, Idle, History([], [], 0, [], [], 0, 0, map[]))
  }

  lemma FreshIsInitial(cfg: Config)
    requires cfg.Ok()
    ensures Initial(Fresh(cfg))
  {}

  lemma {:induction false} UncleanIsNotSafe(cfg: Config, p: Packet)
    requires cfg.Ok() && Accepted(p) && !Clean(p)
    ensures !SafeBesideClean(cfg, p)
  {
    hide Clean;
    FreshIsInitial(cfg);
    var s0 := Fresh(cfg);
    var t, s := UncleanCorruptsWire(s0, p);
    assert AllCleanBut(p, t) by { OneIsClean(); }
    assert !WireRight(s);
  }

  lemma OneIsClean()
    ensures Clean([1])
  {}

  /** An acceptable packet may be sent beside clean ones without any frame being altered, in every run, exactly
      when it is clean itself. */
  lemma {:induction false} WireRightIffClean(cfg: Config, p: Packet)
    requires cfg.Ok() && 1 <= |p| <= 2048
    ensures SafeBesideClean(cfg, p) <==> forall k | 2038 <= k < |p| :: p[k] == 0
  {
    assert Clean(p) <==> forall k | 2038 <= k < |p| :: p[k] == 0;
    hide SafeBesideClean, Clean;
    if Clean(p) {
      CleanIsSafe(cfg, p);
    } else {
      UncleanIsNotSafe(cfg, p);
    }
  }
}
