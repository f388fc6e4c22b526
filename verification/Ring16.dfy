/** Free-running 16-bit ring indices: what wrap-around at 65536 keeps of an unbounded counter. */
module Ring16 {

  const U16: nat := 0x1_0000

  /** `idx++` on a `uint16_t`. */
  function Inc16(x: nat): nat {
    (x + 1) % U16
  }

  /** The ring sizes in use: 16 entries over MMIO, 256 entries over legacy PCI. */
  predicate RingSize(r: nat) {
    r == 16 || r == 256
  }

  /** Incrementing the wrapped index keeps it in step with the unbounded counter. */
  lemma IncTracks(n: nat)
    ensures Inc16(n % U16) == (n + 1) % U16
  {}

  /** `idx % ring`: the slot an index names. */
  function Slot(k: nat, r: nat): (x: nat)
    requires RingSize(r)
    ensures x < r
  {
    if r == 16 then k % 16 else k % 256
  }

  /** Both ring sizes divide 65536, so the slot survives the wrap. */
  lemma SlotTracks(n: nat, r: nat)
    requires RingSize(r)
    ensures Slot(n % U16, r) == Slot(n, r)
  {
    var q, w := n / U16, n % U16;
    if r == 16 {
      Drop16(4096 * q, w);
    } else {
      Drop256(256 * q, w);
    }
  }

  lemma Drop16(a: nat, b: nat)
    ensures (16 * a + b) % 16 == b % 16
  {}

  lemma Drop256(a: nat, b: nat)
    ensures (256 * a + b) % 256 == b % 256
  {}

  /** Counters less than a ring apart use different slots. */
  lemma SlotsDiffer(j: nat, k: nat, r: nat)
    requires RingSize(r) && j < k < j + r
    ensures Slot(j, r) != Slot(k, r)
  {}

  /** Wrapped indices less than 65536 apart are equal exactly when the counters are. */
  lemma SameIndex(m: nat, n: nat)
    requires m <= n < m + U16
    ensures m % U16 == n % U16 <==> m == n
  {}

  /** The modular distance of two wrapped indices is the distance of the counters. */
  lemma Distance(m: nat, n: nat)
    requires m <= n < m + U16
    ensures (n % U16 - m % U16) % U16 == n - m
  {}
}
