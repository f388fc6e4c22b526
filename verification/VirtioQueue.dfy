/** What the transmit and receive virtqueues share: layout, descriptors, and who owns them. */
module VirtioQueue {
  import opened Ring16

  const QUEUE_SIZE: nat := 16
  const MAX_PACKET: nat := 2048
  const HDR_LEN: nat := 10
  /** 16 buffers of 2048 bytes, and the 16 bytes that follow them in the driver context. */
  const MEM_LEN: nat := 16 * 2048 + 16

  /** Ring size of the transport and the alignment offset of the platform. */
  datatype Config = Config(ring: nat, off: nat) {
    ghost predicate Ok() {
      RingSize(ring) && (off == 0 || off == 2)
    }

    /** Where descriptor `i`'s buffer starts. */
    function Addr(i: nat): nat {
      i * 2048 + off
    }
  }

  /** The platforms the driver is built for: 16 ring entries over MMIO or 256 over PCI, packets aligned or not. */
  lemma Platforms(cfg: Config)
    ensures cfg.Ok() <==> (cfg.ring == 16 || cfg.ring == 256) && (cfg.off == 0 || cfg.off == 2)
  {}

  datatype Desc = Desc(addr: nat, len: nat, flags: nat, next: nat)

  /** `m` is exactly the set bits of `inUse`, each once. */
  ghost predicate Exactly(m: multiset<nat>, inUse: seq<bool>) {
    forall i: nat :: m[i] == if i < |inUse| && inUse[i] then 1 else 0
  }

  function CountTrue(b: seq<bool>): (n: nat)
    ensures n <= |b|
    ensures n == |b| <==> forall k :: 0 <= k < |b| ==> b[k]
  {
    if b == [] then 0 else CountTrue(b[..|b| - 1]) + if b[|b| - 1] then 1 else 0
  }

  lemma {:induction false} ExactlyCount(m: multiset<nat>, inUse: seq<bool>)
    requires Exactly(m, inUse)
    ensures |m| == CountTrue(inUse)
    decreases |inUse|
  {
    if inUse == [] {
      assert m == multiset{};
    } else {
      var last: nat := |inUse| - 1;
      var m' := m[last := 0];
      ExactlyCount(m', inUse[..last]);
      assert m == m'[last := m[last]];
    }
  }
}
