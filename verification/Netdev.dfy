/** `netdev_acquire_all`: one resource and one fresh driver context per network device. Contexts come from
    static arrays of four per driver, handed out in index order and never again. */
module Netdev {
  import opened Resources
  import opened ResourceManager
  import opened Wrappers

  const KINDS: nat := 3
  const CONTEXTS: nat := 4

  /** The address of context `i` of driver `k`: distinct for distinct pairs, never null. */
  function ContextOf(k: nat, i: nat): (c: nat)
    requires k < KINDS && i < CONTEXTS
    ensures c != 0
  {
    1 + k * CONTEXTS + i
  }

  datatype DeviceEntry = DeviceEntry(resource: nat, driver: Driver, context: nat)

  /** Contexts handed out: the first `used[k]` of each driver, each once. */
  ghost predicate HandedOut(used: seq<nat>, handed: seq<nat>) {
    && |used| == KINDS && (forall k | 0 <= k < KINDS :: used[k] <= CONTEXTS)
    && (forall i, j | 0 <= i < j < |handed| :: handed[i] != handed[j])
    && (forall c | c in handed :: exists k, i :: 0 <= k < KINDS && 0 <= i < used[k] && c == ContextOf(k, i))
  }

  lemma {:induction false} HandOutNext(used: seq<nat>, handed: seq<nat>, k: nat)
    requires HandedOut(used, handed) && k < KINDS && used[k] < CONTEXTS
    ensures HandedOut(used[k := used[k] + 1], handed + [ContextOf(k, used[k])])
  {
    var used', c := used[k := used[k] + 1], ContextOf(k, used[k]);
    forall d | d in handed + [c]
      ensures exists j, i :: 0 <= j < KINDS && 0 <= i < used'[j] && d == ContextOf(j, i)
    {
      if d in handed {
        var j, i :| 0 <= j < KINDS && 0 <= i < used[j] && d == ContextOf(j, i);
        assert 0 <= i < used'[j];
      } else {
        assert 0 <= used[k] < used'[k] && d == ContextOf(k, used[k]);
      }
    }
    assert c !in handed;
  }

  /** The allocation a returned entry describes. */
  predicate Describes(d: DeviceEntry, e: Entry) {
    d.resource == e.slot && d.driver == e.driver && d.context == e.context
  }

  /** The allocations `es'` are those of `es` preceded by the devices handed out, the latest first. */
  ghost predicate Grown(es: seq<Entry>, devices: seq<DeviceEntry>, es': seq<Entry>) {
    && |es'| == |devices| + |es| && es'[|devices|..] == es
    && forall i | 0 <= i < |devices| :: Describes(devices[i], es'[|devices| - 1 - i])
  }

  lemma GrownNot(es: seq<Entry>)
    ensures Grown(es, [], es)
  {}

  lemma {:induction false} AcquiredGrows(
    devs: seq<Device>, es: seq<Entry>, devices: seq<DeviceEntry>, now: seq<Entry>, d: DeviceEntry, init: seq<bool>,
    es': seq<Entry>)
    requires Grown(es, devices, now) && Acquired(devs, now, d.driver, d.context, init, es', d.resource)
    ensures Grown(es, devices + [d], es')
  {
    var device: nat :| es' == [Entry(d.resource, device, d.driver, d.context)] + now;
    Prepended(es, devices, now, d, es'[0], es');
  }

  lemma {:induction false} Prepended(
    es: seq<Entry>, devices: seq<DeviceEntry>, now: seq<Entry>, d: DeviceEntry, e: Entry, es': seq<Entry>)
    requires Grown(es, devices, now) && Describes(d, e) && es' == [e] + now
    ensures Grown(es, devices + [d], es')
  {
    assert es'[|devices| + 1..] == now[|devices|..];
  }

  /** The first `k` drivers are out of contexts, or have no device they could be given in this round. */
  ghost predicate PassedOver(
    devs: seq<Device>, es: seq<Entry>, drivers: seq<Driver>, used: seq<nat>, init: nat -> seq<bool>, round: nat, k: nat)
    requires |drivers| == |used| == KINDS
  {
    k <= KINDS && forall j | 0 <= j < k ::
      used[j] == CONTEXTS || Unavailable(devs, es, drivers[j], init(round * KINDS + j))
  }

  /** In this round the drivers before `k` were passed over and driver `k`, if there is one, got a device. */
  ghost predicate Picked(
    devs: seq<Device>, es: seq<Entry>, drivers: seq<Driver>, used: seq<nat>, init: nat -> seq<bool>, round: nat, k: nat,
    got: Option<DeviceEntry>, es': seq<Entry>)
    requires |drivers| == |used| == KINDS
  {
    && PassedOver(devs, es, drivers, used, init, round, k) && (got.Some? <==> k < KINDS)
    && match got {
         case Some(d) => Acquired(devs, es, drivers[k], d.context, init(round * KINDS + k), es', d.resource)
         case None => es' == es
       }
  }

  function Total(used: seq<nat>): nat
    requires |used| == KINDS
  {
    used[0] + used[1] + used[2]
  }

  class Netdev {
    const manager: Manager
    /** rtl8139, virtio-net, e1000. */
    const drivers: seq<Driver>
    /** The static index of each driver. */
    var used: seq<nat>
    ghost var handed: seq<nat>

    ghost predicate Valid()
      reads this, manager, manager.pool
    {
      manager.Valid() && |drivers| == KINDS && HandedOut(used, handed)
    }

    constructor (manager: Manager, drivers: seq<Driver>)
      requires manager.Valid() && |drivers| == KINDS
      ensures Valid() && handed == [] && this.manager == manager && this.drivers == drivers
    {
      this.manager, this.drivers, used, handed := manager, drivers, [0, 0, 0], [];
    }

    /** One driver's turn: if it has a context left, try to acquire a device for it. */
    method TryDriver(k: nat, init: seq<bool>) returns (got: Option<DeviceEntry>)
      requires Valid() && k < KINDS
      modifies this, manager, manager.pool
      ensures Valid()
      ensures got.Some? ==> old(used[k]) < 4
      ensures got.Some? ==> used == old(used)[k := old(used[k]) + 1] && handed == old(handed) + [got.value.context]
      ensures got.Some? ==> got.value.driver == drivers[k] && got.value.context == ContextOf(k, old(used[k]))
      ensures got.Some? ==> Acquired(manager.devices, old(manager.Entries()), drivers[k], got.value.context, init,
                                     manager.Entries(), got.value.resource)
      ensures got.None? ==> used == old(used) && handed == old(handed) && manager.Entries() == old(manager.Entries())
      ensures got.None? ==> used[k] == 4 || Unavailable(manager.devices, manager.Entries(), drivers[k], init)
    {
      hide Acquired, Unavailable, Linked, Filled, Sound;
      got := None;
      if used[k] < CONTEXTS {
        var context := ContextOf(k, used[k]);
        var r, tried := manager.AcquireAvailable(Some(drivers[k]), Some(context), init);
        if r.Some? {
          HandOutNext(used, handed, k);
          got := Some(DeviceEntry(r.value, drivers[k], context));
          used, handed := used[k := used[k] + 1], handed + [context];
        }
      }
    }

    /** One round over the drivers, in order, until one of them, `k`, gets a device. */
    method NextDevice(init: nat -> seq<bool>, round: nat) returns (got: Option<DeviceEntry>, k: nat)
      requires Valid()
      modifies this, manager, manager.pool
      ensures Valid() && k <= KINDS && (got.Some? <==> k < KINDS)
      ensures got.Some? ==> old(used[k]) < CONTEXTS && used == old(used)[k := old(used[k]) + 1]
      ensures got.Some? ==> handed == old(handed) + [got.value.context]
      ensures got.Some? ==> got.value.driver == drivers[k] && got.value.context == ContextOf(k, old(used[k]))
      ensures Picked(manager.devices, old(manager.Entries()), drivers, old(used), init, round, k, got, manager.Entries())
      ensures got.None? ==> used == old(used) && handed == old(handed) && manager.Entries() == old(manager.Entries())
    {
      hide Acquired, Unavailable, Linked, Filled, Sound;
      k := 0;
      got := TryDriver(0, init(round * KINDS));
      if got.Some? { return; }
      k := 1;
      got := TryDriver(1, init(round * KINDS + 1));
      if got.Some? { return; }
      k := 2;
      got := TryDriver(2, init(round * KINDS + 2));
      if got.Some? { return; }
      k := 3;
    }

    /** `netdev_acquire_all`; `init` gives the outcomes of `init_context` at each attempt. All contexts handed
        out over any number of calls are distinct, and fewer than `max` devices are returned only once every
        driver is out of contexts or out of devices. */
    method AcquireAll(max: int, init: nat -> seq<bool>) returns (devices: seq<DeviceEntry>)
      requires Valid()
      modifies this, manager, manager.pool
      ensures Valid() && (max < 0 ==> devices == []) && (max >= 0 ==> |devices| <= max)
      ensures |used| == 3 && forall k | 0 <= k < 3 :: used[k] <= 4
      ensures |handed| == |old(handed)| + |devices| && old(handed) <= handed
      ensures forall i | 0 <= i < |devices| :: handed[|old(handed)| + i] == devices[i].context
      ensures Grown(old(manager.Entries()), devices, manager.Entries())
      ensures |devices| < max ==> PassedOver(manager.devices, manager.Entries(), drivers, used, init, |devices|, KINDS)
    {
      hide Acquired, Unavailable, Linked, Filled, Sound, Grown;
      devices := [];
      ghost var start, before := handed, manager.Entries();
      GrownNot(before);
      while |devices| < max
        invariant Valid() && (max < 0 ==> devices == []) && (max >= 0 ==> |devices| <= max)
        invariant |handed| == |start| + |devices| && start <= handed
        invariant forall i | 0 <= i < |devices| :: handed[|start| + i] == devices[i].context
        invariant Grown(before, devices, manager.Entries())
        decreases KINDS * CONTEXTS - Total(used)
      {
        ghost var now := manager.Entries();
        var got, k := NextDevice(init, |devices|);
        if got.None? { return; }
        AcquiredGrows(manager.devices, before, devices, now, got.value, init(|devices| * KINDS + k),
                      manager.Entries());
        devices := devices + [got.value];
      }
    }
  }
}
