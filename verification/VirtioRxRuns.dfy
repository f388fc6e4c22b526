/** What holds of the receive queue in every run, for every interleaving of driver and device. */
module VirtioRxRuns {
  import opened Ring16
  import opened Transitions
  import opened VirtioQueue
  import opened VirtioRx

  ghost predicate Inv(s: Rx) {
    OwnInv(s) && Intact(s) && Delivery(s)
  }

  lemma {:induction false} InitialInv(s: Rx)
    requires Initial(s)
    ensures Inv(s)
  {
    hide Numbers;
    forall i: nat
      ensures Owned(s)[i] == if i < QUEUE_SIZE then 1 else 0
    {
      Numbered(16, i);
      assert Pending(s) == Numbers(16);
    }
  }

  lemma {:induction false} Numbered(n: nat, i: nat)
    ensures multiset(Numbers(n))[i] == if i < n then 1 else 0
  {
    if n > 0 {
      Numbered(n - 1, i);
      OneMore(Numbers(n - 1), n - 1, i);
      assert Numbers(n) == Numbers(n - 1) + [n - 1];
    }
  }

  lemma OneMore(s: seq<nat>, x: nat, i: nat)
    ensures multiset(s + [x])[i] == multiset(s)[i] + if x == i then 1 else 0
  {}

  lemma {:induction false} NextKeepsInv(s: Rx, a: Action, s': Rx)
    requires Inv(s) && Next(s, a, s')
    ensures Inv(s')
  {
    StepKeepsOwn(s, a);
    StepKeepsIntact(s, a);
    StepKeepsDelivery(s, a);
  }

  lemma {:induction false} Reachable(s0: Rx, t: seq<Action>, s: Rx)
    requires Initial(s0) && Runs(Next, s0, t, s)
    ensures Inv(s)
  {
    InitialInv(s0);
    forall m, a, m' | Inv(m) && Next(m, a, m')
      ensures Inv(m')
    {
      NextKeepsInv(m, a, m');
    }
    Invariant(Next, _ => true, Inv, s0, t, s);
  }

  /** Posted + held + completed-unconsumed + being reposted + retired = 16 in every reachable state, where
      the retired buffers are exactly the completions refused by an error return. */
  lemma {:induction false} BuffersConserved(s0: Rx, t: seq<Action>, s: Rx)
    requires Initial(s0) && Runs(Next, s0, t, s)
    ensures OwnInv(s)
    ensures |Pending(s)| + |s.held| + |Unconsumed(s)| + |s.pc.Reserved()| + |s.h.retired| == QUEUE_SIZE
    ensures s.h.retired == Refused(s.h.done, s.h.sizes)
    ensures (s.availIdx - s.devIdx) % U16 == |Pending(s)| && (s.usedIdx - s.lastUsed) % U16 == |Unconsumed(s)|
  {
    Reachable(s0, t, s);
    Conservation(s);
    IndexDistances(s);
  }

  lemma {:induction false} IndexDistances(s: Rx)
    requires OwnInv(s)
    ensures (s.availIdx - s.devIdx) % U16 == |Pending(s)| && (s.usedIdx - s.lastUsed) % U16 == |Unconsumed(s)|
  {
    Conservation(s);
    Distance(s.h.taken, |s.h.posted|);
    Distance(Consumed(s), |s.h.done|);
  }

  /** Reading the head entry's fields one by one would yield the same: no move of the device changes it. */
  lemma {:induction false} HeadStays(s: Rx, a: Action)
    requires OwnInv(s) && Enabled(s, a) && (a.Take? || a.Write? || a.Complete?) && Consumed(s) < |s.h.done|
    ensures Step(s, a).used[Slot(s.lastUsed, s.cfg.ring)] == s.used[Slot(s.lastUsed, s.cfg.ring)]
  {
    if a.Complete? {
      UsedSlotFree(s, a.id);
      SlotTracks(Consumed(s), s.cfg.ring);
      SlotTracks(|s.h.done|, s.cfg.ring);
      assert Slot(Consumed(s), s.cfg.ring) != Slot(|s.h.done|, s.cfg.ring);
    }
  }

  /** Callers receive the payloads of the accepted completions and nothing else, in completion order and with
      the 10-byte header stripped, whatever lengths the device reports. */
  lemma {:induction false} DeliveredInOrder(s0: Rx, t: seq<Action>, s: Rx)
    requires Initial(s0) && Runs(Next, s0, t, s)
    ensures OwnInv(s) && s.h.delivered == Due(s.h.done, s.h.sizes)
  {
    Reachable(s0, t, s);
  }

  lemma {:induction false} RefusedCount(done: seq<Completion>, sizes: seq<nat>)
    requires |sizes| <= |done|
    ensures |Refused(done, sizes)| == |sizes| - |Due(done, sizes)|
    decreases |sizes|
  {
    if sizes != [] {
      RefusedCount(done, sizes[..|sizes| - 1]);
    }
  }

  /** With no error return, all 16 buffers keep circulating; each error return takes one away for good. */
  lemma {:induction false} CirculatingBuffers(s0: Rx, t: seq<Action>, s: Rx)
    requires Initial(s0) && Runs(Next, s0, t, s)
    ensures OwnInv(s) && |Due(s.h.done, s.h.sizes)| <= |s.h.sizes|
    ensures |Pending(s)| + |s.held| + |Unconsumed(s)| + |s.pc.Reserved()|
         == QUEUE_SIZE - (|s.h.sizes| - |Due(s.h.done, s.h.sizes)|)
  {
    BuffersConserved(s0, t, s);
    RefusedCount(s.h.done, s.h.sizes);
  }

  /** What can happen when nothing is posted, held or completed. */
  lemma {:induction false} NothingMoves(s: Rx, a: Action, s': Rx)
    requires Shape(s) && s.pc.Idle? && s.availIdx == s.devIdx && s.usedIdx == s.lastUsed && s.held == multiset{}
    requires Next(s, a, s')
    ensures a.Call? && s' == s
  {}

  lemma {:induction false} SomethingMoves(s: Rx)
    requires OwnInv(s) && s.pc.Idle? && |s.h.retired| < QUEUE_SIZE
    ensures Enabled(s, Take) || (exists id :: Enabled(s, Complete(id, 0))) || CallStep(s, 0).pc.Fetch?
  {
    Conservation(s);
    IndexDistances(s);
    if |s.held| > 0 {
      var id :| id in s.held;
      assert Enabled(s, Complete(id, 0));
    }
  }

  /** A driver at rest that has refused 16 completions is deaf: the device has no buffer left to take, write
      or complete, and every further call returns at once. Before that, somebody can still move. */
  lemma {:induction false} DeafAfterSixteenRefusals(s0: Rx, t: seq<Action>, s: Rx)
    requires Initial(s0) && Runs(Next, s0, t, s) && s.pc.Idle?
    ensures |s.h.retired| <= QUEUE_SIZE
    ensures |s.h.retired| == QUEUE_SIZE ==> forall a, s' | Next(s, a, s') :: a.Call? && s' == s
    ensures |s.h.retired| < QUEUE_SIZE ==>
              Enabled(s, Take) || (exists id :: Enabled(s, Complete(id, 0))) || CallStep(s, 0).pc.Fetch?
  {
    assert OwnInv(s) by { BuffersConserved(s0, t, s); }
    Conservation(s);
    if |s.h.retired| < QUEUE_SIZE {
      SomethingMoves(s);
    } else {
      assert s.availIdx == s.devIdx && s.usedIdx == s.lastUsed && s.held == multiset{} by { Empty(s); }
      forall a, s' | Next(s, a, s')
        ensures a.Call? && s' == s
      {
        NothingMoves(s, a, s');
      }
    }
  }

  lemma {:induction false} Empty(s: Rx)
    requires OwnInv(s) && |s.h.retired| == QUEUE_SIZE
    ensures s.availIdx == s.devIdx && s.usedIdx == s.lastUsed && s.held == multiset{}
  {
    Conservation(s);
    IndexDistances(s);
  }

  // ---------------------------------------------------------------- a run to the deaf state

  /** The driver is at rest and the device holds nothing back: every buffer is posted or retired. */
  ghost predicate Quiet(s: Rx) {
    Inv(s) && s.pc.Idle? && s.held == multiset{} && Consumed(s) == |s.h.done|
  }

  /** The device takes the next buffer. */
  lemma {:induction false} QuietTakes(s: Rx) returns (id: nat, m: Rx)
    requires Quiet(s) && |s.h.retired| < QUEUE_SIZE
    ensures Next(s, Take, m) && Inv(m) && m.pc.Idle? && m.held == multiset{id}
    ensures m.h.sizes == s.h.sizes && m.h.done == s.h.done && m.h.retired == s.h.retired
  {
    Conservation(s);
    IndexDistances(s);
    id, m := s.avail[Slot(s.devIdx, s.cfg.ring)], TakeStep(s);
    NextKeepsInv(s, Take, m);
  }

  /** It completes that buffer with a length of zero. */
  lemma {:induction false} HolderCompletes(s: Rx, id: nat) returns (m: Rx)
    requires Inv(s) && s.pc.Idle? && s.held == multiset{id} && Consumed(s) == |s.h.done|
    ensures Next(s, Complete(id, 0), m) && Inv(m) && m.pc.Idle? && m.held == multiset{}
    ensures m.h.sizes == s.h.sizes && |m.h.done| == |s.h.done| + 1 && m.h.retired == s.h.retired
    ensures m.h.done[|s.h.done|].len == 0
  {
    m := CompleteStep(s, id, 0);
    NextKeepsInv(s, Complete(id, 0), m);
  }

  /** A call refuses it. */
  lemma {:induction false} CallRefuses(s: Rx) returns (m: Rx, s': Rx)
    requires Inv(s) && s.pc.Idle? && s.held == multiset{} && |s.h.done| == Consumed(s) + 1
    requires s.h.done[Consumed(s)].len == 0
    ensures Next(s, Call(0), m) && Next(m, Driver, s') && Quiet(s') && |s'.h.retired| == |s.h.retired| + 1
  {
    CallKeepsOwn(s, 0);
    m := CallStep(s, 0);
    NextKeepsInv(s, Call(0), m);
    HeadEntry(m);
    s' := FetchStep(m);
    NextKeepsInv(m, Driver, s');
  }

  lemma {:induction false} RefuseOne(s: Rx) returns (s': Rx)
    requires Quiet(s) && |s.h.retired| < QUEUE_SIZE
    ensures Reaches(Next, s, s') && Quiet(s') && |s'.h.retired| == |s.h.retired| + 1
  {
    hide Quiet, Inv, Next;
    assert s.pc.Idle? && Consumed(s) == |s.h.done| by { AtRest(s); }
    var id, a := QuietTakes(s);
    var b := HolderCompletes(a, id);
    var c;
    c, s' := CallRefuses(b);
    Stay(Next, s');
    Then(Next, c, Driver, s', s');
    Then(Next, b, Call(0), c, s');
    Then(Next, a, Complete(id, 0), b, s');
    Then(Next, s, Take, a, s');
  }

  lemma AtRest(s: Rx)
    requires Quiet(s)
    ensures Inv(s) && s.pc.Idle? && Consumed(s) == |s.h.done|
  {}

  lemma {:induction false} RefuseAll(s: Rx) returns (s': Rx)
    requires Quiet(s)
    ensures Reaches(Next, s, s') && s'.pc.Idle? && |s'.h.retired| == QUEUE_SIZE
    decreases QUEUE_SIZE - |s.h.retired|
  {
    AtRest(s);
    Conservation(s);
    hide Quiet, Inv, Next;
    if |s.h.retired| == QUEUE_SIZE {
      Stay(Next, s);
      s' := s;
    } else {
      var m := RefuseOne(s);
      s' := RefuseAll(m);
      Join(Next, s, m, s');
    }
  }

  /** The deaf state is reached: from every state in which the driver is at rest and the device holds nothing
      back, the initial one included, some run goes on to 16 refusals. */
  lemma {:induction false} DeafReached(s0: Rx, t: seq<Action>, s: Rx)
    requires Initial(s0) && Runs(Next, s0, t, s) && s.pc.Idle? && s.held == multiset{} && Consumed(s) == |s.h.done|
    ensures exists u, s' :: Runs(Next, s0, t + u, s') && s'.pc.Idle? && |s'.h.retired| == QUEUE_SIZE
                            && forall a, s'' | Next(s', a, s'') :: a.Call? && s'' == s'
  {
    Reachable(s0, t, s);
    var s' := RefuseAll(s);
    var u :| Runs(Next, s, u, s');
    Append(Next, s0, t, s, u, s');
    DeafAfterSixteenRefusals(s0, t + u, s');
  }
}
