/** The resource manager: which device an acquisition picks, and what any sequence of acquisitions and
    releases keeps. Devices and pool slots are named by their index in the static arrays that hold them. */
module Resources {
  import opened Transitions
  import opened Wrappers

  const POOL: nat := 16

  datatype IdEntry = IdEntry(compatible: Option<string>, vendor: nat, device: nat) {
    /** The all-zero entry that ends a table. */
    predicate Terminator() {
      compatible.None? && vendor == 0 && device == 0
    }
  }

  datatype Device = Device(compatible: Option<string>, vendor: nat, device: nat)

  datatype Driver = Driver(id: nat, idTable: Option<seq<IdEntry>>, hasInit: bool, hasDeinit: bool)

  /** One table entry against one device. */
  predicate EntryMatches(e: IdEntry, d: Device) {
    || (e.compatible.Some? && d.compatible.Some? && e.compatible.value == d.compatible.value)
    || (e.vendor != 0 && e.device != 0 && d.vendor == e.vendor && d.device == e.device)
  }

  /** Some entry before the terminator matches. */
  ghost predicate Matches(d: Device, drv: Driver) {
    drv.idTable.Some? &&
    exists k | 0 <= k < |drv.idTable.value| ::
      EntryMatches(drv.idTable.value[k], d) && forall j | 0 <= j <= k :: !drv.idTable.value[j].Terminator()
  }

  /** A driver is for a device exactly when an entry of its table, before the first that is all zero, names the device's
      compatible string, or both its nonzero ids. */
  lemma {:induction false} MatchesIff(d: Device, drv: Driver)
    ensures Matches(d, drv) <==>
            drv.idTable.Some? &&
            exists k | 0 <= k < |drv.idTable.value| ::
              var e := drv.idTable.value[k];
              && ((e.compatible.Some? && d.compatible == e.compatible)
                  || (e.vendor == d.vendor != 0 && e.device == d.device != 0))
              && forall j | 0 <= j < k :: drv.idTable.value[j] != IdEntry(None, 0, 0)
  {
    if drv.idTable.Some? {
      var t := drv.idTable.value;
      assert forall k | 0 <= k < |t| :: t[k].Terminator() <==> t[k] == IdEntry(None, 0, 0);
      if Matches(d, drv) {
        var k :| 0 <= k < |t| && EntryMatches(t[k], d) && forall j | 0 <= j <= k :: !t[j].Terminator();
        assert forall j | 0 <= j < k :: t[j] != IdEntry(None, 0, 0);
      }
    }
  }

  /** An allocation. */
  datatype Entry = Entry(slot: nat, device: nat, driver: Driver, context: nat)

  ghost predicate Allocated(es: seq<Entry>, device: nat) {
    exists k | 0 <= k < |es| :: es[k].device == device
  }

  ghost predicate InPool(es: seq<Entry>, slot: nat) {
    exists k | 0 <= k < |es| :: es[k].slot == slot
  }

  /** `device` is what an acquisition should hand out: it matches, is free, and its init succeeds. */
  ghost predicate Candidate(devs: seq<Device>, es: seq<Entry>, drv: Driver, init: seq<bool>, device: nat) {
    device < |devs| && Matches(devs[device], drv) && !Allocated(es, device) && InitOk(drv, init, device)
  }

  /** The outcome of `init_context` on a device: given per device; no hook means success. */
  predicate InitOk(drv: Driver, init: seq<bool>, device: nat) {
    !drv.hasInit || (device < |init| && init[device])
  }

  /** An acquisition turned `es` into `es'`, handing out slot `slot`: the first candidate in device order,
      in the first unused slot, at the head of the list. */
  ghost predicate Acquired(
    devs: seq<Device>, es: seq<Entry>, drv: Driver, context: nat, init: seq<bool>, es': seq<Entry>, slot: nat)
  {
    exists device: nat ::
      && Candidate(devs, es, drv, init, device)
      && (forall k | 0 <= k < device :: !Candidate(devs, es, drv, init, k))
      && slot < POOL && !InPool(es, slot) && (forall k | 0 <= k < slot :: InPool(es, k))
      && es' == [Entry(slot, device, drv, context)] + es
  }

  ghost predicate SlotTaken(es: seq<Entry>, slot: nat) {
    slot in set i | 0 <= i < |es| :: es[i].slot
  }

  /** `k` can be handed out: the driver is for it, nobody has it, and its hook, if there is one, succeeds. */
  ghost predicate Takes(devs: seq<Device>, es: seq<Entry>, drv: Driver, init: seq<bool>, k: nat) {
    && k < |devs| && Matches(devs[k], drv) && (forall i | 0 <= i < |es| :: es[i].device != k)
    && (drv.hasInit ==> k < |init| && init[k])
  }

  /** What an acquisition does: the first device that can be handed out, in the first slot nobody has, put first. */
  lemma {:induction false} AcquiredMeans(
    devs: seq<Device>, es: seq<Entry>, drv: Driver, context: nat, init: seq<bool>, es': seq<Entry>, slot: nat)
    ensures Acquired(devs, es, drv, context, init, es', slot) <==>
            exists device: nat ::
              && Takes(devs, es, drv, init, device) && (forall k: nat | k < device :: !Takes(devs, es, drv, init, k))
              && slot < 16 && !SlotTaken(es, slot) && (forall k: nat | k < slot :: SlotTaken(es, k))
              && es' == [Entry(slot, device, drv, context)] + es
  {
    hide Matches;
    forall k: nat
      ensures Takes(devs, es, drv, init, k) <==> Candidate(devs, es, drv, init, k)
      ensures SlotTaken(es, k) <==> InPool(es, k)
    {}
    hide Takes, Candidate, SlotTaken, InPool;
  }

  /** And what it takes for one to fail. */
  lemma {:induction false} UnavailableMeans(devs: seq<Device>, es: seq<Entry>, drv: Driver, init: seq<bool>)
    ensures Unavailable(devs, es, drv, init) <==>
            || (forall k: nat | k < 16 :: SlotTaken(es, k))
            || (forall k: nat :: !Takes(devs, es, drv, init, k))
  {
    hide Matches;
    forall k: nat
      ensures Takes(devs, es, drv, init, k) <==> Candidate(devs, es, drv, init, k)
      ensures SlotTaken(es, k) <==> InPool(es, k)
    {}
    hide Takes, Candidate, SlotTaken, InPool;
  }

  /** No slot is unused, or no device is a candidate. */
  ghost predicate Unavailable(devs: seq<Device>, es: seq<Entry>, drv: Driver, init: seq<bool>) {
    (forall k | 0 <= k < POOL :: InPool(es, k)) || (forall k: nat :: !Candidate(devs, es, drv, init, k))
  }

  /** A release took the entry of `slot` out of the list, keeping the others and their order. */
  ghost predicate Released(es: seq<Entry>, slot: nat, es': seq<Entry>) {
    exists k | 0 <= k < |es| :: es[k].slot == slot && es' == es[..k] + es[k + 1..]
  }

  // ---------------------------------------------------------------- in every run

  /** Distinct pool slots, distinct devices, each bound to a driver that matches it. */
  ghost predicate Sound(devs: seq<Device>, es: seq<Entry>) {
    && (forall i | 0 <= i < |es| ::
          es[i].slot < POOL && es[i].device < |devs| && Matches(devs[es[i].device], es[i].driver))
    && (forall i, j | 0 <= i < j < |es| :: es[i].slot != es[j].slot && es[i].device != es[j].device)
  }

  datatype Op = Acquire(driver: Driver, context: nat, init: seq<bool>) | Release(slot: nat)

  /** What one operation may do: on failure, nothing. */
  ghost predicate Next(devs: seq<Device>, es: seq<Entry>, op: Op, es': seq<Entry>) {
    match op
    case Acquire(drv, context, init) =>
      if Unavailable(devs, es, drv, init) then es' == es
      else exists slot :: Acquired(devs, es, drv, context, init, es', slot)
    case Release(slot) => if InPool(es, slot) then Released(es, slot, es') else es' == es
  }

  lemma {:induction false} AcquiredKeepsSound(
    devs: seq<Device>, es: seq<Entry>, drv: Driver, context: nat, init: seq<bool>, es': seq<Entry>, slot: nat)
    requires Sound(devs, es) && Acquired(devs, es, drv, context, init, es', slot)
    ensures Sound(devs, es')
  {
    forall j | 1 <= j < |es'|
      ensures es'[0].slot != es'[j].slot && es'[0].device != es'[j].device
    {
      assert es'[j] == es[j - 1];
    }
  }

  lemma {:induction false} NextKeepsSound(devs: seq<Device>, es: seq<Entry>, op: Op, es': seq<Entry>)
    requires Sound(devs, es) && Next(devs, es, op, es')
    ensures Sound(devs, es')
  {
    match op {
      case Acquire(drv, context, init) =>
        if !Unavailable(devs, es, drv, init) {
          var slot :| Acquired(devs, es, drv, context, init, es', slot);
          AcquiredKeepsSound(devs, es, drv, context, init, es', slot);
        }
      case Release(slot) =>
    }
  }

  lemma {:induction false} DistinctBelow(s: seq<nat>, n: nat)
    requires (forall i | 0 <= i < |s| :: s[i] < n) && forall i, j | 0 <= i < j < |s| :: s[i] != s[j]
    ensures |s| <= n
    decreases n
  {
    if s != [] {
      assert s[0] < n;
      if k :| 0 <= k < |s| && s[k] == n - 1 {
        DistinctBelow(s[..k] + s[k + 1..], n - 1);
      } else {
        DistinctBelow(s, n - 1);
      }
    }
  }

  /** After any sequence of acquisitions and releases no device is allocated twice, no pool slot is used
      twice, and at most 16 allocations exist. */
  lemma {:induction false} ExclusiveInEveryRun(devs: seq<Device>, t: seq<Op>, es: seq<Entry>)
    requires Runs((a, op, b) => Next(devs, a, op, b), [], t, es)
    ensures Sound(devs, es) && |es| <= 16
  {
    var next := (a, op, b) => Next(devs, a, op, b);
    var inv := es => Sound(devs, es);
    forall a, op, b | inv(a) && next(a, op, b)
      ensures inv(b)
    {
      NextKeepsSound(devs, a, op, b);
    }
    Invariant(next, _ => true, inv, [], t, es);
    DistinctBelow(seq(|es|, k requires 0 <= k < |es| => es[k].slot), POOL);
  }

  /** Releasing what was just acquired restores the allocations. */
  lemma {:induction false} ReleaseUndoesAcquire(
    devs: seq<Device>, es: seq<Entry>, drv: Driver, context: nat, init: seq<bool>, es': seq<Entry>, slot: nat,
    es'': seq<Entry>)
    requires Acquired(devs, es, drv, context, init, es', slot) && Released(es', slot, es'')
    ensures es'' == es
  {
    var k :| 0 <= k < |es'| && es'[k].slot == slot && es'' == es'[..k] + es'[k + 1..];
    if k > 0 {
      assert es[k - 1].slot == slot && InPool(es, slot);
      assert false;
    }
  }
}
