/** The resource manager as code: a static pool of 16 slots, in-use flags, and a linked list of allocations
    threaded through the slots. */
module ResourceManager {
  import opened Links
  import opened Resources
  import opened Wrappers

  /** A `struct resource`; `next` is the index of the next slot in the allocation list. */
  datatype PoolSlot = PoolSlot(device: Option<nat>, driver: Option<Driver>, context: Option<nat>, next: Option<nat>, inUse: bool)

  const BLANK: PoolSlot := PoolSlot(None, None, None, None, false)

  /** The list starts at `head`, follows `next`, ends, and visits no slot twice. */
  ghost predicate Linked(p: seq<PoolSlot>, head: Option<nat>, list: seq<nat>) {
    && |p| == POOL && head == Link(list, -1)
    && (forall i | 0 <= i < |list| :: list[i] < POOL && p[list[i]].next == Link(list, i))
    && Distinct(list)
  }

  ghost predicate Distinct(list: seq<nat>) {
    forall i, j | 0 <= i < j < |list| :: list[i] != list[j]
  }

  /** The listed slots are exactly the in-use ones, and each describes an allocation. */
  ghost predicate Filled(p: seq<PoolSlot>, list: seq<nat>) {
    && |p| == POOL && (forall i | 0 <= i < |list| :: list[i] < POOL && Complete(p[list[i]]))
    && (forall k: nat | k < POOL :: p[k].inUse <==> k in list)
  }

  predicate Complete(s: PoolSlot) {
    s.device.Some? && s.driver.Some? && s.context.Some?
  }

  function EntryOf(slot: nat, s: PoolSlot): Entry
    requires Complete(s)
  {
    Entry(slot, s.device.value, s.driver.value, s.context.value)
  }

  /** The allocations, most recent first. */
  ghost function EntriesOf(p: seq<PoolSlot>, list: seq<nat>): (es: seq<Entry>)
    requires Filled(p, list)
    ensures |es| == |list| && forall i | 0 <= i < |list| :: es[i] == EntryOf(list[i], p[list[i]])
  {
    seq(|list|, i requires 0 <= i < |list| => EntryOf(list[i], p[list[i]]))
  }

  /** A slot not on the list, put at its head. */
  lemma {:induction false} PushLinks(p: seq<PoolSlot>, head: Option<nat>, list: seq<nat>, slot: nat, s: PoolSlot)
    requires Linked(p, head, list) && slot < POOL && slot !in list && s.next == head
    ensures Linked(p[slot := s], Some(slot), [slot] + list)
  {
    var p', list' := p[slot := s], [slot] + list;
    PushDistinct(list, slot);
    hide Distinct;
    forall i | 0 <= i < |list'|
      ensures list'[i] < POOL && p'[list'[i]].next == Link(list', i)
    {
      if i > 0 {
        assert list'[i] == list[i - 1] && list[i - 1] in list;
        assert Link(list', i) == Link(list, i - 1);
      }
    }
  }

  lemma {:induction false} PushDistinct(list: seq<nat>, slot: nat)
    requires Distinct(list) && slot !in list
    ensures Distinct([slot] + list)
  {
    var list' := [slot] + list;
    forall i, j | 0 <= i < j < |list'|
      ensures list'[i] != list'[j]
    {
      assert list'[j] == list[j - 1];
    }
  }

  lemma {:induction false} PushFills(p: seq<PoolSlot>, list: seq<nat>, slot: nat, s: PoolSlot)
    requires Filled(p, list) && slot < POOL && slot !in list && Complete(s) && s.inUse
    ensures Filled(p[slot := s], [slot] + list)
    ensures EntriesOf(p[slot := s], [slot] + list) == [EntryOf(slot, s)] + EntriesOf(p, list)
  {
    var p', list' := p[slot := s], [slot] + list;
    assert forall i | 1 <= i < |list'| :: list'[i] == list[i - 1] && list'[i] != slot;
    forall k: nat | k < POOL
      ensures p'[k].inUse <==> k in list'
    {
      assert k in list' <==> k == slot || k in list;
    }
  }

  /** The list without position `k`. */
  function Without(list: seq<nat>, k: nat): seq<nat>
    requires k < |list|
  {
    list[..k] + list[k + 1..]
  }

  lemma {:induction false} WithoutAt(list: seq<nat>, k: nat, i: nat)
    requires k < |list| && i < |list| - 1
    ensures Without(list, k)[i] == list[if i < k then i else i + 1]
  {}

  lemma {:induction false} WithoutDistinct(list: seq<nat>, k: nat)
    requires k < |list| && Distinct(list)
    ensures Distinct(Without(list, k))
  {
    var r := Without(list, k);
    forall i, j | 0 <= i < j < |r|
      ensures r[i] != r[j]
    {
      WithoutAt(list, k, i);
      WithoutAt(list, k, j);
    }
  }

  lemma {:induction false} LinkWithout(list: seq<nat>, k: nat, i: nat)
    requires k + 1 < |list| && i < |list| - 1
    ensures Link(Without(list, k + 1), i)
         == if i < k then Link(list, i) else if i == k then Link(list, k + 1) else Link(list, i + 1)
  {
    if i + 1 < |list| - 1 {
      WithoutAt(list, k + 1, i + 1);
    }
  }

  lemma {:induction false} BypassOne(p: seq<PoolSlot>, head: Option<nat>, list: seq<nat>, k: nat, i: nat)
    requires Linked(p, head, list) && k + 1 < |list| && i < |list| - 1
    ensures var list' := Without(list, k + 1);
            && list'[i] < POOL
            && p[list[k] := p[list[k]].(next := p[list[k + 1]].next)][list'[i]].next == Link(list', i)
  {
    WithoutAt(list, k + 1, i);
    LinkWithout(list, k, i);
  }

  /** Bypassing the slot at position `k + 1` takes exactly it off the list. */
  lemma {:induction false} BypassLinks(p: seq<PoolSlot>, head: Option<nat>, list: seq<nat>, k: nat)
    requires Linked(p, head, list) && k + 1 < |list|
    ensures Linked(p[list[k] := p[list[k]].(next := p[list[k + 1]].next)], head, Without(list, k + 1))
  {
    hide Distinct;
    WithoutDistinct(list, k + 1);
    WithoutAt(list, k + 1, 0);
    var list' := Without(list, k + 1);
    var p' := p[list[k] := p[list[k]].(next := p[list[k + 1]].next)];
    forall i: nat | i < |list'|
      ensures list'[i] < POOL && p'[list'[i]].next == Link(list', i)
    {
      BypassOne(p, head, list, k, i);
    }
  }

  /** Dropping the head. */
  lemma {:induction false} DropHeadLinks(p: seq<PoolSlot>, head: Option<nat>, list: seq<nat>)
    requires Linked(p, head, list) && list != []
    ensures Linked(p, p[list[0]].next, Without(list, 0))
  {
    WithoutDistinct(list, 0);
    hide Distinct;
    var list' := list[1..];
    assert Without(list, 0) == list';
    forall i | 0 <= i < |list'|
      ensures list'[i] < POOL && p[list'[i]].next == Link(list', i)
    {
      assert list'[i] == list[i + 1] && Link(list', i) == Link(list, i + 1);
    }
  }

  /** Blanking a slot that is off the list. */
  lemma {:induction false} BlankLinks(p: seq<PoolSlot>, head: Option<nat>, list: seq<nat>, slot: nat)
    requires Linked(p, head, list) && slot < POOL && slot !in list
    ensures Linked(p[slot := BLANK], head, list)
  {}

  lemma {:induction false} BlankUnlisted(p: seq<PoolSlot>, head: Option<nat>, list: seq<nat>, slot: nat)
    requires Linked(p, head, list) && Filled(p, list) && slot < POOL && slot !in list
    ensures Linked(p[slot := BLANK], head, list) && Filled(p[slot := BLANK], list)
    ensures EntriesOf(p[slot := BLANK], list) == EntriesOf(p, list)
  {}

  lemma {:induction false} RemovedFills(p: seq<PoolSlot>, list: seq<nat>, k: nat, p': seq<PoolSlot>)
    requires Filled(p, list) && k < |list| && Distinct(list)
    requires |p'| == POOL && p'[list[k]] == BLANK
    requires forall i: nat | i < POOL && i != list[k] :: p'[i] == p[i].(next := p'[i].next)
    ensures Filled(p', Without(list, k))
  {
    var list' := Without(list, k);
    forall i | 0 <= i < |list'|
      ensures list'[i] < POOL && Complete(p'[list'[i]])
    {
      WithoutAt(list, k, i);
    }
    forall i: nat | i < POOL
      ensures p'[i].inUse <==> i in list'
    {
      assert i in list' <==> i in list[..k] || i in list[k + 1..];
      if i in list && i != list[k] {
        var j :| 0 <= j < |list| && list[j] == i;
        assert list'[if j < k then j else j - 1] == i;
      }
    }
  }

  /** Same slots apart from their links, one fewer on the list, the removed one blank. */
  lemma {:induction false} RemovedEntries(p: seq<PoolSlot>, list: seq<nat>, k: nat, p': seq<PoolSlot>)
    requires Filled(p, list) && k < |list| && Distinct(list)
    requires |p'| == POOL && p'[list[k]] == BLANK
    requires forall i: nat | i < POOL && i != list[k] :: p'[i] == p[i].(next := p'[i].next)
    ensures Filled(p', Without(list, k))
    ensures EntriesOf(p', Without(list, k)) == EntriesOf(p, list)[..k] + EntriesOf(p, list)[k + 1..]
  {
    RemovedFills(p, list, k, p');
    var es := EntriesOf(p', Without(list, k));
    forall i | 0 <= i < |es|
      ensures es[i] == EntriesOf(p, list)[if i < k then i else i + 1]
    {
      WithoutAt(list, k, i);
    }
  }

  /** No device before `d` is a candidate. */
  ghost predicate NoneBefore(devs: seq<Device>, es: seq<Entry>, drv: Driver, init: seq<bool>, d: nat) {
    forall k: nat | k < d :: !Candidate(devs, es, drv, init, k)
  }

  /** The driver's hook is called on matching free devices only. */
  ghost predicate AllFree(devs: seq<Device>, es: seq<Entry>, drv: Driver, tried: seq<nat>) {
    forall k | 0 <= k < |tried| :: tried[k] < |devs| && Matches(devs[tried[k]], drv) && !Allocated(es, tried[k])
  }

  lemma NothingTried(devs: seq<Device>, es: seq<Entry>, drv: Driver, init: seq<bool>)
    ensures NoneBefore(devs, es, drv, init, 0) && AllFree(devs, es, drv, [])
  {}

  lemma NoneAfter(devs: seq<Device>, es: seq<Entry>, drv: Driver, init: seq<bool>, d: nat)
    requires NoneBefore(devs, es, drv, init, d) && !Candidate(devs, es, drv, init, d)
    ensures NoneBefore(devs, es, drv, init, d + 1)
  {}

  lemma NoneAtAll(devs: seq<Device>, es: seq<Entry>, drv: Driver, init: seq<bool>)
    requires NoneBefore(devs, es, drv, init, |devs|)
    ensures Unavailable(devs, es, drv, init)
  {}

  lemma {:induction false} FirstCandidate(
    devs: seq<Device>, es: seq<Entry>, drv: Driver, context: nat, init: seq<bool>, d: nat, slot: nat)
    requires NoneBefore(devs, es, drv, init, d) && Candidate(devs, es, drv, init, d)
    requires slot < POOL && !InPool(es, slot) && forall k | 0 <= k < slot :: InPool(es, k)
    ensures Acquired(devs, es, drv, context, init, [Entry(slot, d, drv, context)] + es, slot)
    ensures !Unavailable(devs, es, drv, init)
  {}

  lemma {:induction false} AllFreeAppend(devs: seq<Device>, es: seq<Entry>, drv: Driver, tried: seq<nat>, d: nat)
    requires AllFree(devs, es, drv, tried) && d < |devs| && Matches(devs[d], drv) && !Allocated(es, d)
    ensures AllFree(devs, es, drv, tried + [d])
  {
    var ts := tried + [d];
    forall k | 0 <= k < |ts|
      ensures ts[k] < |devs| && Matches(devs[ts[k]], drv) && !Allocated(es, ts[k])
    {
      assert ts[k] == if k < |tried| then tried[k] else d;
    }
  }

  class Manager {
    const devices: seq<Device>
    var allocations: Option<nat>
    const pool: array<PoolSlot>
    /** The slots on the list, in list order. */
    ghost var list: seq<nat>

    /** The allocations, most recent first. */
    ghost function Entries(): seq<Entry>
      reads this, pool
      requires Filled(pool[..], list)
    {
      EntriesOf(pool[..], list)
    }

    ghost predicate Valid()
      reads this, pool
    {
      Linked(pool[..], allocations, list) && Filled(pool[..], list) && Sound(devices, Entries())
    }

    constructor (devices: seq<Device>)
      ensures Valid() && Entries() == [] && this.devices == devices && fresh(pool)
    {
      var slots := new PoolSlot[16](_ => BLANK);
      this.devices, pool, allocations, list := devices, slots, None, [];
    }

    /** `device_matches_driver`: the table is read up to its terminator. */
    method DeviceMatchesDriver(d: Device, drv: Driver) returns (r: bool)
      ensures r <==> Matches(d, drv)
    {
      if drv.idTable.None? { return false; }
      var table := drv.idTable.value;
      var k := 0;
      while k < |table| && (table[k].compatible.Some? || table[k].vendor != 0 || table[k].device != 0)
        invariant k <= |table|
        invariant forall j | 0 <= j < k :: !table[j].Terminator() && !EntryMatches(table[j], d)
      {
        var e := table[k];
        if e.compatible.Some? && d.compatible.Some? && e.compatible.value == d.compatible.value { return true; }
        if e.vendor != 0 && e.device != 0 && d.vendor == e.vendor && d.device == e.device { return true; }
        k := k + 1;
      }
      r := false;
    }

    lemma AtPosition(i: nat)
      requires Valid() && i < |list|
      ensures list[i] < POOL && pool[list[i]].next == Link(list, i)
    {}

    lemma DeviceAt(i: nat)
      requires Valid() && i < |list|
      ensures list[i] < POOL && pool[list[i]].device == Some(Entries()[i].device)
    {}

    lemma AtHead()
      requires Valid()
      ensures pool.Length == POOL && allocations == Link(list, -1)
    {}

    /** `device_is_allocated`: follow the list. */
    method DeviceIsAllocated(device: nat) returns (r: bool)
      requires Valid()
      ensures r <==> Allocated(Entries(), device)
    {
      AtHead();
      hide Valid, EntriesOf;
      assert Filled(pool[..], list) by { Listed(); }
      var at := allocations;
      ghost var i := 0;
      while at.Some?
        invariant i <= |list| && at == Link(list, i - 1)
        invariant forall k | 0 <= k < i :: Entries()[k].device != device
        decreases |list| - i
      {
        AtPosition(i);
        DeviceAt(i);
        if pool[at.value].device == Some(device) { return true; }
        at := pool[at.value].next;
        i := i + 1;
      }
      r := false;
    }

    /** The scan of `resource_alloc`: the first slot not in use, or none. */
    method FirstUnused() returns (slot: Option<nat>)
      requires Valid()
      ensures slot.None? <==> forall k | 0 <= k < POOL :: InPool(Entries(), k)
      ensures slot.Some? ==> slot.value < POOL && !InPool(Entries(), slot.value)
      ensures slot.Some? ==> forall k | 0 <= k < slot.value :: InPool(Entries(), k)
    {
      UsedMeansListed();
      for i := 0 to 16
        invariant forall k | 0 <= k < i :: pool[k].inUse
      {
        if !pool[i].inUse { return Some(i); }
      }
      slot := None;
    }

    lemma UsedMeansListed()
      requires Valid()
      ensures forall k: nat | k < POOL :: pool[k].inUse <==> InPool(Entries(), k)
    {
      forall k: nat | k < POOL
        ensures pool[k].inUse <==> InPool(Entries(), k)
      {
        ListedMeansInPool(k);
      }
    }

    lemma ListedMeansInPool(slot: nat)
      requires Valid()
      ensures slot in list <==> InPool(Entries(), slot)
    {
      if slot in list {
        var i :| 0 <= i < |list| && list[i] == slot;
        assert Entries()[i].slot == slot;
      }
    }

    /** Bind a reserved slot to a device. `ok` is the outcome of `init_context`: on failure the slot goes back
        to the pool, otherwise to the head of the list. */
    method Bind(slot: nat, device: nat, driver: Driver, context: nat, ok: bool)
      requires Valid() && slot < POOL && !InPool(Entries(), slot)
      requires device < |devices| && Matches(devices[device], driver) && !Allocated(Entries(), device)
      modifies this, pool
      ensures Valid()
      ensures Entries() == if ok then [Entry(slot, device, driver, context)] + old(Entries()) else old(Entries())
      ensures !ok ==> allocations == old(allocations) && list == old(list)
    {
      ghost var p := pool[..];
      assert slot !in list && !p[slot].inUse by { ListedMeansInPool(slot); }
      pool[slot] := pool[slot].(inUse := true);
      pool[slot] := pool[slot].(device := Some(device), driver := Some(driver), context := Some(context));
      if !ok {
        pool[slot] := BLANK;
        BlankUnlisted(p, allocations, list, slot);
        assert pool[..] == p[slot := BLANK];
        return;
      }
      pool[slot] := pool[slot].(next := allocations);
      PushLinks(p, allocations, list, slot, pool[slot]);
      PushFills(p, list, slot, pool[slot]);
      assert pool[..] == p[slot := pool[slot]];
      SoundCons(devices, EntriesOf(p, list), Entry(slot, device, driver, context));
      allocations := Some(slot);
      list := [slot] + list;
    }

    /** `resource_acquire_available`: the first device in list order that matches, is free and initialises, in
        the first unused slot; `init` is the outcome of `init_context` per device. `tried` is the devices it
        was called on. */
    method AcquireAvailable(driver: Option<Driver>, context: Option<nat>, init: seq<bool>)
      returns (r: Option<nat>, tried: seq<nat>)
      requires Valid()
      modifies this, pool
      ensures Valid()
      ensures driver.None? || context.None? ==> r == None && tried == []
      ensures driver.Some? && context.Some? ==>
                (r.None? <==> Unavailable(devices, old(Entries()), driver.value, init))
      ensures r.None? ==> Entries() == old(Entries()) && allocations == old(allocations) && list == old(list)
      ensures r.Some? ==> driver.Some? && context.Some?
      ensures r.Some? ==> Acquired(devices, old(Entries()), driver.value, context.value, init, Entries(), r.value)
      ensures driver.Some? ==> AllFree(devices, old(Entries()), driver.value, tried)
      ensures driver.Some? && context.Some? ==>
                Next(devices, old(Entries()), Op.Acquire(driver.value, context.value, init), Entries())
    {
      hide Acquired, Unavailable, Candidate, Linked, Filled, Sound, AllFree, NoneBefore;
      r, tried := None, [];
      if driver.Some? { NothingTried(devices, Entries(), driver.value, init); }
      if driver.None? || context.None? { return; }
      for d := 0 to |devices|
        invariant Valid() && Entries() == old(Entries()) && allocations == old(allocations) && list == old(list)
        invariant NoneBefore(devices, Entries(), driver.value, init, d)
        invariant AllFree(devices, Entries(), driver.value, tried)
      {
        var full, slot, called := TryDevice(d, driver.value, context.value, init);
        if full { return; }
        if called {
          AllFreeAppend(devices, old(Entries()), driver.value, tried, d);
          tried := tried + [d];
        }
        if slot.Some? { return slot, tried; }
        NoneAfter(devices, Entries(), driver.value, init, d);
      }
      NoneAtAll(devices, Entries(), driver.value, init);
    }

    /** One device of the scan: not a candidate, or no slot left, or acquired. */
    method TryDevice(d: nat, drv: Driver, context: nat, init: seq<bool>)
      returns (full: bool, slot: Option<nat>, called: bool)
      requires Valid() && d < |devices| && NoneBefore(devices, Entries(), drv, init, d)
      modifies this, pool
      ensures Valid()
      ensures full ==> slot.None? && Unavailable(devices, old(Entries()), drv, init)
      ensures slot.None? ==> Entries() == old(Entries()) && allocations == old(allocations) && list == old(list)
      ensures slot.None? && !full ==> !Candidate(devices, old(Entries()), drv, init, d)
      ensures slot.Some? ==> Acquired(devices, old(Entries()), drv, context, init, Entries(), slot.value)
      ensures slot.Some? ==> !Unavailable(devices, old(Entries()), drv, init)
      ensures called ==> Matches(devices[d], drv) && !Allocated(old(Entries()), d)
    {
      hide Linked, Filled, Sound, Matches, Allocated;
      full, slot, called := false, None, false;
      var free := IsFree(d, drv);
      if !free { return; }
      slot := FirstUnused();
      if slot.None? {
        full := true;
        return;
      }
      called := drv.hasInit;
      Bind(slot.value, d, drv, context, InitOk(drv, init, d));
      if InitOk(drv, init, d) {
        FirstCandidate(devices, old(Entries()), drv, context, init, d, slot.value);
      } else {
        slot := None;
      }
    }

    /** The two checks before a slot is reserved. */
    method IsFree(d: nat, drv: Driver) returns (r: bool)
      requires Valid() && d < |devices|
      ensures r <==> Matches(devices[d], drv) && !Allocated(Entries(), d)
    {
      var matches := DeviceMatchesDriver(devices[d], drv);
      if !matches { return false; }
      var taken := DeviceIsAllocated(d);
      r := !taken;
    }

    /** The loop that looks for the slot linking to `slot`. */
    method FindPrevious(slot: nat) returns (prev: Option<nat>, ghost k: nat)
      requires Valid() && allocations != Some(slot)
      ensures prev.Some? ==> k + 1 < |list| && list[k] == prev.value && list[k + 1] == slot
      ensures prev.None? ==> slot !in list
    {
      AtHead();
      hide Valid;
      k := 0;
      var at := allocations;
      while at.Some?
        invariant k <= |list| && at == Link(list, k - 1) && at != Some(slot)
        invariant forall i | 0 <= i < k :: list[i] != slot
        decreases |list| - k
      {
        AtPosition(k);
        if pool[at.value].next == Some(slot) { return at, k; }
        at := pool[at.value].next;
        k := k + 1;
      }
      prev := None;
    }

    /** `resource_remove_allocation`: unlink the slot if it is on the list; `k` is its position. */
    method RemoveAllocation(slot: nat) returns (found: bool, ghost k: nat)
      requires Valid()
      modifies this, pool
      ensures found <==> slot in old(list)
      ensures !found ==> list == old(list) && pool[..] == old(pool[..]) && allocations == old(allocations)
      ensures found ==> k < |old(list)| && old(list)[k] == slot && list == Without(old(list), k)
      ensures found ==> Linked(pool[..], allocations, list)
      ensures forall i: nat | i < POOL :: pool[i] == old(pool[i]).(next := pool[i].next)
    {
      AtHead();
      hide Linked, Filled, Sound, Without;
      if allocations == Some(slot) {
        DropHead();
        return true, 0;
      }
      var prev;
      prev, k := FindPrevious(slot);
      found := prev.Some?;
      if found {
        Bypass(prev.value, slot, k);
        k := k + 1;
      }
    }

    method DropHead()
      requires Valid() && allocations.Some?
      modifies this
      ensures old(list) != [] && list == Without(old(list), 0) && Linked(pool[..], allocations, list)
    {
      AtHead();
      AtPosition(0);
      hide Linked, Filled, Sound, Without;
      DropHeadLinks(pool[..], allocations, list);
      allocations := pool[allocations.value].next;
      list := Without(list, 0);
    }

    method Bypass(prev: nat, slot: nat, ghost k: nat)
      requires Valid() && k + 1 < |list| && list[k] == prev && list[k + 1] == slot
      modifies this, pool
      ensures list == Without(old(list), k + 1) && allocations == old(allocations)
      ensures Linked(pool[..], allocations, list)
      ensures forall i: nat | i < POOL :: pool[i] == old(pool[i]).(next := pool[i].next)
    {
      ghost var p := pool[..];
      BypassLinks(p, allocations, list, k);
      pool[prev] := pool[prev].(next := pool[slot].next);
      assert pool[..] == p[list[k] := p[list[k]].(next := p[list[k + 1]].next)];
      list := Without(list, k + 1);
    }

    /** `resource_release`: -1 for no resource or one that is not allocated, changing nothing; otherwise only
        its entry disappears and its slot is blank. `deinit` says whether the driver's hook was called. */
    method Release(resource: Option<nat>) returns (r: int, deinit: bool)
      requires Valid()
      modifies this, pool
      ensures Valid()
      ensures r == 0 <==> resource.Some? && InPool(old(Entries()), resource.value)
      ensures r == 0 ==> Released(old(Entries()), resource.value, Entries())
      ensures r != 0 ==> r == -1 && !deinit && Entries() == old(Entries()) && list == old(list)
      ensures r == 0 ==> exists k | 0 <= k < |old(Entries())| ::
                old(Entries())[k].slot == resource.value && deinit == old(Entries())[k].driver.hasDeinit
      ensures resource.Some? ==> Next(devices, old(Entries()), Op.Release(resource.value), Entries())
    {
      deinit := false;
      if resource.None? { return -1, false; }
      var slot := resource.value;
      ListedMeansInPool(slot);
      Listed();
      hide Linked, Filled, Sound;
      ghost var p, listed := pool[..], list;
      var found, k := RemoveAllocation(slot);
      if !found { return -1, false; }
      var s := pool[slot];
      deinit := s.driver.Some? && s.driver.value.hasDeinit && s.context.Some?;
      WithoutLacks(listed, k);
      BlankLinks(pool[..], allocations, list, slot);
      ghost var q := pool[..];
      pool[slot] := BLANK;
      assert pool[..] == q[slot := BLANK];
      RemovedEntries(p, listed, k, pool[..]);
      SoundWithout(devices, EntriesOf(p, listed), k);
      assert EntriesOf(p, listed)[k].slot == slot;
      r := 0;
    }

    lemma Listed()
      requires Valid()
      ensures Filled(pool[..], list) && Distinct(list) && forall i | 0 <= i < |list| :: list[i] < POOL
    {}
  }

  lemma {:induction false} WithoutLacks(list: seq<nat>, k: nat)
    requires Distinct(list) && k < |list|
    ensures list[k] !in Without(list, k)
  {
    forall i | 0 <= i < |list| - 1
      ensures Without(list, k)[i] != list[k]
    {
      WithoutAt(list, k, i);
    }
  }

  lemma {:induction false} SoundWithout(devs: seq<Device>, es: seq<Entry>, k: nat)
    requires Sound(devs, es) && k < |es|
    ensures Sound(devs, es[..k] + es[k + 1..])
  {}

  lemma {:induction false} SoundCons(devs: seq<Device>, es: seq<Entry>, e: Entry)
    requires Sound(devs, es) && e.slot < POOL && e.device < |devs| && Matches(devs[e.device], e.driver)
    requires !InPool(es, e.slot) && !Allocated(es, e.device)
    ensures Sound(devs, [e] + es)
  {}
}
