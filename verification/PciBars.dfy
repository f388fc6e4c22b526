/** Base address registers as the bus defines them, the arithmetic that sizes and places them, and what any
    sequence of placements keeps. */
module PciBars {
  import opened Bits

  const MMIO_BASE: nat := 0x4000_0000
  const MMIO_LIMIT: nat := 0x5000_0000

  /** The 32-bit word whose bits from `n` on are set. */
  function BitsFrom(n: nat): (w: nat)
    ensures n <= 32 ==> w == 0x1_0000_0000 - Pow2(n)
  {
    if n > 32 then 0
    else
      Pow2Grows(n, 32);
      PowersOfTwo();
      0x1_0000_0000 - Pow2(n)
  }

  /** Registers per device. */
  const BARS: nat := 6

  /** A base address register (section 6.2.5.1 of PCI Local Bus 3.0): the low `bits` bits are hardwired to `flags`,
      those from `top` on to zero, the others hold what was written. */
  datatype Register = Register(bits: nat, top: nat, flags: nat, value: nat) {
    predicate IsIo() {
      flags == 1
    }

    /** A memory register whose upper 32 address bits are the next register. */
    predicate Is64() {
      flags % 2 == 0 && flags / 2 % 4 == 2
    }

    /** The upper half of a 64-bit register, an I/O range, or a memory range of 16 bytes or more (32 fixed bits: none
        in this register). */
    ghost predicate Ok(upper: bool) {
      && (if upper then bits < 32 && flags == 0 && top == 32
          else if IsIo() then 2 <= bits < top <= 32
          else 4 <= bits <= 32 && flags < 16 && flags % 2 == 0 && top == 32)
      && value < 0x1_0000_0000 && Low(value, bits) == flags && Low(value, top) == value
    }

    function Write(v: nat): Register {
      var kept := Low(v, top);
      this.(value := kept - Low(kept, bits) + flags)
    }

    /** Which multiple of a power of two the code looks for. */
    function Exp(): nat {
      if bits < 4 then 4 else bits
    }

    /** The size the code computes. */
    function Probed(): nat {
      if IsIo() then Pow2(bits) + BitsFrom(top)
      else if bits == 0 || bits == 32 then 0
      else Pow2(Exp())
    }

    /** The address bits in this register. */
    function Base(): nat {
      value - Low(value, bits)
    }
  }

  /** Register `i` of a row of devices is the upper half of the one before. */
  predicate Upper(bars: seq<Register>, i: nat)
    requires i < |bars|
  {
    i % BARS != 0 && bars[i - 1].Is64()
  }

  /** A row of devices: a 64-bit register is followed by its upper half, which has hardwired bits only if the lower
      half has nothing else. */
  ghost predicate Laid(bars: seq<Register>) {
    && (forall i: nat | i < |bars| :: bars[i].Ok(Upper(bars, i)))
    && (forall i: nat | i < |bars| && bars[i].Is64() :: Paired(bars, i))
  }

  predicate Paired(bars: seq<Register>, i: nat) {
    i + 1 < |bars| && (i + 1) % BARS != 0 && (bars[i + 1].bits == 0 || bars[i].bits == 32)
  }

  /** The size of the range that starts at register `i`: none does at an upper half or an unimplemented register. */
  function RangeSize(bars: seq<Register>, i: nat): nat
    requires i < |bars|
  {
    if Upper(bars, i) then 0
    else if bars[i].Is64() && i + 1 < |bars| then Pow2(bars[i].bits + bars[i + 1].bits)
    else if bars[i].bits == 32 then 0
    else Pow2(bars[i].bits)
  }

  datatype Region = Region(base: nat, size: nat) {
    function End(): nat { base + size }

    predicate InWindow() {
      MMIO_BASE <= base && End() <= MMIO_LIMIT
    }
  }

  /** What the upper half of register `i` reads, 0 if it has none. */
  function UpperValue(bars: seq<Register>, i: nat): nat
    requires i < |bars|
  {
    if bars[i].Is64() && i + 1 < |bars| then bars[i + 1].value else 0
  }

  /** The addresses the device answers to for the range that starts at register `i`. */
  function Decoded(bars: seq<Register>, i: nat): Region
    requires i < |bars|
  {
    Region(bars[i].Base() + 0x1_0000_0000 * UpperValue(bars, i), RangeSize(bars, i))
  }

  // ---------------------------------------------------------------- sizing

  /** The size computed from what a register reads before and after all ones were written to it. */
  function SizeOf(original: nat, mask: nat): nat
    requires mask < 0x1_0000_0000
  {
    if mask == 0 || mask == 0xFFFF_FFFF then 0
    else
      var m := And(mask, if And(original, 1) == 0 then 0xFFFF_FFF0 else 0xFFFF_FFFC);
      (Not32(m) + 1) % 0x1_0000_0000
  }

  lemma AndOne(x: nat)
    ensures And(x, 1) == x % 2
  {}

  lemma {:induction false} LowBit(x: nat, k: nat)
    requires k > 0
    ensures Low(x, k) % 2 == x % 2
  {}

  lemma {:induction false} LowOfOnes(k: nat, m: nat)
    requires k <= m
    ensures Low(Pow2(m) - 1, k) == Pow2(k) - 1 <= Pow2(m) - 1
    decreases k
  {
    if k > 0 {
      LowOfOnes(k - 1, m - 1);
      assert (Pow2(m) - 1) / 2 == Pow2(m - 1) - 1;
    }
  }

  /** What a register reads after all ones were written. */
  lemma {:induction false} AllOnes(r: Register, upper: bool)
    requires r.Ok(upper)
    ensures Pow2(r.bits) <= Pow2(r.top) <= 0x1_0000_0000
    ensures r.Write(0xFFFF_FFFF).value == Pow2(r.top) - Pow2(r.bits) + r.flags
  {
    hide Low, Pow2;
    PowersOfTwo();
    LowOfOnes(r.top, 32);
    LowOfOnes(r.bits, r.top);
  }

  /** The type bits of that reading are the register's. */
  lemma {:induction false} TypeBits(bits: nat, flags: nat, j: nat, m: nat)
    requires j <= bits <= m && flags < Pow2(j)
    ensures Pow2(bits) <= Pow2(m) && Low(Pow2(m) - Pow2(bits) + flags, j) == flags
  {
    hide Pow2, Low;
    Pow2Grows(bits, m);
    Pow2Grows(bits - j, m - j);
    Pow2Sum(m - j, j);
    Pow2Sum(bits - j, j);
    DifferenceOfMultiples(Pow2(m - j), Pow2(bits - j), Pow2(j));
    LowOfSum(Pow2(m - j) - Pow2(bits - j), j, flags);
    LowAll(flags, j);
  }

  lemma DifferenceOfMultiples(a: nat, b: nat, p: nat)
    ensures (a - b) * p == a * p - b * p
  {}

  /** Clearing them leaves the complement of the size less one. */
  lemma {:induction false} MaskedSize(bits: nat, top: nat, flags: nat, j: nat)
    requires j <= bits <= top <= 32 && flags < Pow2(j) && j <= 4
    ensures Pow2(bits) <= Pow2(top) && Pow2(j) <= 0x1_0000_0000
    ensures And(Pow2(top) - Pow2(bits) + flags, 0x1_0000_0000 - Pow2(j)) == Pow2(top) - Pow2(bits)
  {
    hide Pow2, Low, And;
    PowersOfTwo();
    TypeBits(bits, flags, j, top);
    Pow2Grows(j, bits);
    Pow2Grows(top, 32);
    AndHigh(Pow2(top) - Pow2(bits) + flags, j, 32);
  }

  lemma {:induction false} PowersNear(k: nat)
    requires k <= 32
    ensures (k == 0 ==> Pow2(k) == 1) && (k > 0 ==> Pow2(k) >= 2) && (k < 32 ==> Pow2(k) < 0x1_0000_0000)
  {
    PowersOfTwo();
    if k < 32 {
      Pow2Grows(k + 1, 32);
      assert Pow2(k + 1) == 2 * Pow2(k);
    }
  }

  lemma {:induction false} PowersApart(k: nat, m: nat)
    requires k < m
    ensures Pow2(k) < Pow2(m)
  {
    Pow2Grows(k + 1, m);
    assert Pow2(k + 1) == 2 * Pow2(k);
  }

  /** One to three hardwired bits vanish under the mask. */
  lemma {:induction false} ShortMask(bits: nat)
    requires 1 <= bits <= 3
    ensures Pow2(bits) <= 8 && And(0x1_0000_0000 - Pow2(bits), 0xFFFF_FFF0) == 0xFFFF_FFF0
  {
    hide And, Low;
    assert Pow2(1) == 2 && Pow2(2) == 4 && Pow2(3) == 8;
    PowersOfTwo();
    var x, rest := 0x1_0000_0000 - Pow2(bits), 16 - Pow2(bits);
    AndHigh(x, 4, 32);
    LowOfSum(0x0FFF_FFFF, 4, rest);
    LowAll(rest, 4);
    hide Pow2;
  }

  lemma {:induction false} ProbesIo(r: Register)
    requires r.Ok(false) && r.IsIo()
    ensures r.Write(0xFFFF_FFFF).value < 0x1_0000_0000
    ensures SizeOf(r.value, r.Write(0xFFFF_FFFF).value) == r.Probed() > 0
  {
    hide Low, And, Pow2;
    AllOnes(r, false);
    PowersOfTwo();
    AndOne(r.value);
    LowBit(r.value, r.bits);
    Pow2Grows(2, r.bits);
    PowersApart(r.bits, r.top);
    MaskedSize(r.bits, r.top, 1, 2);
  }

  lemma {:induction false} ProbesMemory(r: Register, upper: bool)
    requires r.Ok(upper) && !r.IsIo()
    ensures r.Write(0xFFFF_FFFF).value < 0x1_0000_0000
    ensures SizeOf(r.value, r.Write(0xFFFF_FFFF).value) == r.Probed()
  {
    hide Low, And, Pow2, Not32;
    AllOnes(r, upper);
    PowersOfTwo();
    PowersNear(r.bits);
    if r.bits > 0 {
      assert And(r.value, 1) == 0 by {
        AndOne(r.value);
        LowBit(r.value, r.bits);
      }
      MaskedMemory(r.bits, r.flags);
      Complements(r.bits);
    }
  }

  lemma {:induction false} MaskedMemory(bits: nat, flags: nat)
    requires 1 <= bits <= 32 && flags < 16 && (bits < 4 ==> flags == 0)
    ensures Pow2(bits) <= 0x1_0000_0000
    ensures And(0x1_0000_0000 - Pow2(bits) + flags, 0xFFFF_FFF0) == 0x1_0000_0000 - Pow2(if bits < 4 then 4 else bits)
  {
    hide Low, And, Pow2;
    PowersOfTwo();
    if bits < 4 {
      ShortMask(bits);
    } else {
      Pow2Grows(4, bits);
      MaskedSize(bits, 32, flags, 4);
    }
  }

  lemma {:induction false} Complements(bits: nat)
    requires 1 <= bits <= 32
    ensures var p := Pow2(if bits < 4 then 4 else bits);
            p <= 0x1_0000_0000 && (Not32(0x1_0000_0000 - p) + 1) % 0x1_0000_0000 == if bits == 32 then 0 else p
  {
    PowersOfTwo();
    PowersNear(if bits < 4 then 4 else bits);
    hide Pow2;
  }

  /** What probing yields for every register: the upper half of a 64-bit register is taken for a memory register as
      soon as it has hardwired bits, and upper bits that an I/O register hardwires are added to its size. */
  lemma {:induction false} ProbesSize(r: Register, upper: bool)
    requires r.Ok(upper)
    ensures r.Write(0xFFFF_FFFF).value < 0x1_0000_0000
    ensures SizeOf(r.value, r.Write(0xFFFF_FFFF).value) == r.Probed()
  {
    if r.IsIo() {
      ProbesIo(r);
    } else {
      ProbesMemory(r, upper);
    }
  }

  /** Writing back what a register read restores it. */
  lemma {:induction false} WriteBack(r: Register, upper: bool, v: nat)
    requires r.Ok(upper)
    ensures r.Write(v).Write(r.value) == r
  {
    hide Low;
  }

  // ---------------------------------------------------------------- when the sizes are right

  /** A 64-bit register that asks for 4 GB or more. */
  predicate Huge(r: Register) {
    r.Is64() && r.bits == 32
  }

  /** An I/O register that hardwires upper bits. */
  predicate ShortIo(r: Register) {
    r.IsIo() && r.top < 32
  }

  /** The size of one register is right unless one of the two exceptions applies. */
  lemma {:induction false} SizeRight(bars: seq<Register>, i: nat)
    requires Laid(bars) && i < |bars|
    ensures bars[i].Probed() == 0 || bars[i].Probed() == RangeSize(bars, i)
            <==> !(Upper(bars, i) && bars[i].bits > 0) && !ShortIo(bars[i])
    ensures bars[i].Probed() == RangeSize(bars, i)
            <==> !(Upper(bars, i) && bars[i].bits > 0) && !ShortIo(bars[i]) && !Huge(bars[i])
  {
    hide Pow2;
    var r := bars[i];
    PowersOfTwo();
    assert r.Ok(Upper(bars, i));
    if r.IsIo() {
      PowersApart(r.bits, r.top);
      if r.top < 32 { PowersApart(r.top, 32); }
    } else if r.Is64() {
      assert Paired(bars, i);
    }
  }

  /** No register is given a size its range does not have, exactly when no upper half has a hardwired bit, as those
      of 8 GB or more do, and no I/O register hardwires upper bits. */
  lemma {:induction false} NoWrongSizeIff(bars: seq<Register>)
    requires Laid(bars)
    ensures (forall i: nat | i < |bars| :: bars[i].Probed() == 0 || bars[i].Probed() == RangeSize(bars, i))
            <==> forall i: nat | i < |bars| :: !(Upper(bars, i) && bars[i].bits > 0) && !ShortIo(bars[i])
  {
    hide Register.Probed, RangeSize;
    forall i: nat | i < |bars|
      ensures bars[i].Probed() == 0 || bars[i].Probed() == RangeSize(bars, i)
              <==> !(Upper(bars, i) && bars[i].bits > 0) && !ShortIo(bars[i])
    {
      SizeRight(bars, i);
    }
  }

  /** Every register is given the size of its range, and an upper half none, exactly when no 64-bit register asks for
      4 GB or more and no I/O register hardwires upper bits. */
  lemma {:induction false} SizesRightIff(bars: seq<Register>)
    requires Laid(bars)
    ensures (forall i: nat | i < |bars| :: bars[i].Probed() == RangeSize(bars, i))
            <==> forall i: nat | i < |bars| :: !Huge(bars[i]) && !ShortIo(bars[i])
  {
    hide Register.Probed, RangeSize;
    forall i: nat | i < |bars|
      ensures bars[i].Probed() == RangeSize(bars, i)
              <==> !(Upper(bars, i) && bars[i].bits > 0) && !ShortIo(bars[i]) && !Huge(bars[i])
    {
      SizeRight(bars, i);
    }
    forall i: nat | i < |bars| && Upper(bars, i) && bars[i].bits > 0
      ensures Huge(bars[i - 1])
    {
      assert Paired(bars, i - 1);
    }
  }

  // ---------------------------------------------------------------- placing

  ghost predicate Aligned(a: nat, k: nat) {
    Low(a, k) == 0
  }

  lemma {:induction false} AlignedMeans(a: nat, k: nat)
    ensures Aligned(a, k) <==> a % Pow2(k) == 0
  {
    Euclid(a, k);
    RemainderIs(a, Pow2(k), Shr(a, k), Low(a, k));
  }

  lemma {:induction false} RemainderIs(a: nat, p: nat, q: nat, r: nat)
    requires p > 0 && a == q * p + r && r < p
    ensures a % p == r
  {
    MultiplesApart(q, a / p, p);
    MultiplesApart(a / p, q, p);
  }

  lemma MultipleAtLeast(d: nat, p: nat)
    requires d > 0
    ensures d * p >= p
  {}

  /** `(next + (size - 1)) & ~(size - 1)` in 64 bits. */
  function MaskUp(next: nat, size: nat): nat
    requires 0 < size <= 0x1_0000_0000
  {
    And(next + (size - 1), Not64(size - 1))
  }

  /** The least multiple of `2^k` from `x` on. */
  function RoundUp(x: nat, k: nat): nat {
    var y := x + Pow2(k) - 1;
    y - Low(y, k)
  }

  lemma {:induction false} RoundsUp(x: nat, k: nat)
    ensures Aligned(RoundUp(x, k), k) && x <= RoundUp(x, k) < x + Pow2(k)
    ensures RoundUp(x, k) == x + Pow2(k) - 1 - Low(x + Pow2(k) - 1, k)
  {
    var y := x + Pow2(k) - 1;
    Euclid(y, k);
    LowOfSum(Shr(y, k), k, 0);
    LowZero(k);
  }

  lemma {:induction false} RoundUpIsLeast(x: nat, k: nat, a: nat)
    requires x <= a && Aligned(a, k)
    ensures RoundUp(x, k) <= a
  {
    hide RoundUp, Pow2, Low, Shr;
    RoundsUp(x, k);
    Euclid(a, k);
    Euclid(RoundUp(x, k), k);
    MultiplesApart(Shr(a, k), Shr(RoundUp(x, k), k), Pow2(k));
  }

  /** A multiple below another is at least one whole step below. */
  lemma {:induction false} MultiplesApart(a: nat, b: nat, p: nat)
    ensures a * p >= b * p || a * p + p <= b * p
  {
    if a < b {
      MultipleAtLeast(b - a, p);
      assert (b - a) * p == b * p - a * p;
    } else {
      assert (a - b) * p == a * p - b * p;
    }
  }

  /** The mask trick rounds up, for every power of two a register can ask for. */
  lemma {:induction false} MaskRoundsUp(next: nat, k: nat)
    requires k <= 32 && next < 0x2_0000_0000
    ensures Pow2(k) <= 0x1_0000_0000
    ensures MaskUp(next, Pow2(k)) == RoundUp(next, k)
  {
    PowersOfTwo();
    Pow2Sum(32, 32);
    Pow2Grows(k, 32);
    assert Pow2(64) == 0x1_0000_0000_0000_0000;
    RoundsUp(next, k);
    AndHigh(next + Pow2(k) - 1, k, 64);
  }

  /** The value written to the register. */
  function NewValue(aligned: nat, value: nat): nat {
    Or(aligned % 0x1_0000_0000, And(value, 0xF))
  }

  /** A register written to keeps its low four bits and holds the address. */
  lemma {:induction false} Places(r: Register, upper: bool, base: nat)
    requires r.Ok(upper) && !r.IsIo() && 1 <= r.bits && Aligned(base, r.Exp()) && base + 16 < 0x1_0000_0000
    ensures var value := base + Low(r.value, 4);
            && NewValue(base, r.value) == value && Low(value, 4) == Low(r.value, 4)
            && r.Write(value) == r.(value := value) && r.(value := value).Ok(upper)
    ensures r.bits >= 4 ==> Low(r.value, 4) == r.flags
  {
    hide Pow2, Low, Shr, And, Or;
    PowersOfTwo();
    LowMask(r.value);
    Nibble(r.value);
    Multiple16(base, r.Exp());
    var m: nat :| base == m * Pow2(4);
    OrDisjoint(m, 4, Low(r.value, 4));
    LowOfSum(m, 4, Low(r.value, 4));
    LowAll(Low(r.value, 4), 4);
    KeepsFixed(r, base);
    LowAll(base + Low(r.value, 4), 32);
  }

  lemma {:induction false} Nibble(x: nat)
    ensures Low(x, 4) < 16
  {
    PowersOfTwo();
    Euclid(x, 4);
  }

  /** What is written agrees with the hardwired bits. */
  lemma {:induction false} KeepsFixed(r: Register, base: nat)
    requires Low(r.value, r.bits) == r.flags && Aligned(base, r.Exp())
    requires Low(base + Low(r.value, 4), 4) == Low(r.value, 4) && (r.bits >= 4 ==> r.flags < 16)
    ensures Low(base + Low(r.value, 4), r.bits) == r.flags
    ensures r.bits >= 4 ==> Low(r.value, 4) == r.flags
  {
    hide Pow2, Low, Shr;
    if r.bits < 4 {
      LowLow(base + Low(r.value, 4), r.bits, 4);
      LowLow(r.value, r.bits, 4);
    } else {
      PowersOfTwo();
      LowLow(r.value, 4, r.bits);
      LowAll(r.flags, 4);
      KeepsFlags(base, r.bits, r.flags);
    }
  }

  lemma {:induction false} KeepsFlags(base: nat, k: nat, flags: nat)
    requires Aligned(base, k) && 4 <= k && flags < 16
    ensures Low(base + flags, k) == flags
  {
    hide Pow2, Low, Shr;
    PowersOfTwo();
    Pow2Grows(4, k);
    Euclid(base, k);
    LowOfSum(Shr(base, k), k, flags);
    LowAll(flags, k);
  }

  lemma {:induction false} LowMask(x: nat)
    ensures And(x, 0xF) == Low(x, 4)
  {
    PowersOfTwo();
    AndField(x, 0, 4);
  }

  lemma {:induction false} Multiple16(base: nat, k: nat)
    requires Aligned(base, k) && 4 <= k
    ensures exists m: nat :: base == m * Pow2(4)
  {
    Euclid(base, k);
    Pow2Sum(k - 4, 4);
    var q, c, p := Shr(base, k), Pow2(k - 4), Pow2(4);
    assert q * (c * p) == (q * c) * p;
  }

  // ---------------------------------------------------------------- the allocator

  /** The cursor, the registers, the ranges handed out so far, and which of them each placed register holds. */
  datatype Allocation = Allocation(next: nat, bars: seq<Register>, regions: seq<Region>, current: map<nat, nat>)

  /** The register is taken to ask for memory, and the next aligned range of its size fits in the window. */
  ghost predicate Fits(s: Allocation, at: nat)
    requires at < |s.bars|
  {
    var r := s.bars[at];
    !r.IsIo() && r.Probed() > 0 && RoundUp(s.next, r.Exp()) + r.Probed() <= MMIO_LIMIT
  }

  /** Place register `at`, if it fits: otherwise nothing changes. */
  ghost function Assign(s: Allocation, at: nat): Allocation
    requires at < |s.bars|
  {
    if !Fits(s, at) then s
    else
      var r := s.bars[at];
      var base := RoundUp(s.next, r.Exp());
      Allocation(base + r.Probed(), s.bars[at := r.(value := base + Low(r.value, 4))],
                 s.regions + [Region(base, r.Probed())], s.current[at := |s.regions|])
  }

  ghost function AssignAll(s: Allocation, ats: seq<nat>): (s': Allocation)
    requires forall i | 0 <= i < |ats| :: ats[i] < |s.bars|
    ensures |s'.bars| == |s.bars|
    decreases |ats|
  {
    if ats == [] then s else Assign(AssignAll(s, ats[..|ats| - 1]), ats[|ats| - 1])
  }

  /** Every range lies in the window, before the cursor and after the ranges handed out earlier. */
  ghost predicate Ordered(regions: seq<Region>, next: nat) {
    && MMIO_BASE <= next <= MMIO_LIMIT
    && (forall i | 0 <= i < |regions| :: MMIO_BASE <= regions[i].base && regions[i].End() <= next)
    && (forall i, j | 0 <= i < j < |regions| :: regions[i].End() <= regions[j].base)
  }

  /** A register written to holds the address of its range, aligned to its size; no range is held by two registers. */
  ghost predicate Held(bars: seq<Register>, regions: seq<Region>, current: map<nat, nat>) {
    && (forall at | at in current :: at < |bars| && current[at] < |regions| && Holds(bars[at], regions[current[at]]))
    && (forall a, b | a in current && b in current && a != b :: current[a] != current[b])
  }

  ghost predicate Holds(r: Register, g: Region) {
    && 1 <= r.bits < 32 && !r.IsIo()
    && r.value == g.base + Low(r.value, 4) && r.Probed() == g.size && Aligned(g.base, r.Exp())
  }

  ghost predicate Sound(s: Allocation) {
    Laid(s.bars) && Ordered(s.regions, s.next) && Held(s.bars, s.regions, s.current)
  }

  lemma {:induction false} Extends(regions: seq<Region>, next: nat, g: Region)
    requires Ordered(regions, next) && next <= g.base && g.End() <= MMIO_LIMIT
    ensures Ordered(regions + [g], g.End())
  {}

  lemma {:induction false} HoldsNext(
    bars: seq<Register>, regions: seq<Region>, current: map<nat, nat>, at: nat, r: Register, g: Region)
    requires Held(bars, regions, current) && at < |bars| && Holds(r, g)
    ensures Held(bars[at := r], regions + [g], current[at := |regions|])
  {}

  /** A value that fits the register keeps the row. */
  lemma {:induction false} LaidNext(bars: seq<Register>, at: nat, value: nat)
    requires Laid(bars) && at < |bars| && bars[at].(value := value).Ok(Upper(bars, at))
    ensures Laid(bars[at := bars[at].(value := value)])
  {
    hide Low;
    var bars' := bars[at := bars[at].(value := value)];
    hide Register.Ok;
    forall i: nat | i < |bars|
      ensures bars'[i].Ok(Upper(bars', i)) && (bars'[i].Is64() ==> Paired(bars', i))
    {
      SamePairs(bars, at, value, i);
    }
  }

  lemma {:induction false} SamePairs(bars: seq<Register>, at: nat, value: nat, i: nat)
    requires at < |bars| && i < |bars| && (bars[i].Is64() ==> Paired(bars, i))
    ensures var bars' := bars[at := bars[at].(value := value)];
            Upper(bars', i) == Upper(bars, i) && (bars'[i].Is64() ==> Paired(bars', i))
  {}

  /** A register that fits. */
  lemma {:induction false} Placed(s: Allocation, at: nat)
    requires Sound(s) && at < |s.bars| && Fits(s, at)
    ensures var r := s.bars[at];
            var base := RoundUp(s.next, r.Exp());
            && r.Ok(Upper(s.bars, at)) && 1 <= r.bits < 32 && s.next <= base && Aligned(base, r.Exp())
            && base + 16 < 0x1_0000_0000
  {
    RoundsUp(s.next, s.bars[at].Exp());
  }

  lemma {:induction false} PlacedHolds(s: Allocation, at: nat)
    requires Sound(s) && at < |s.bars| && Fits(s, at)
    ensures var r := s.bars[at];
            var base := RoundUp(s.next, r.Exp());
            var r' := r.(value := base + Low(r.value, 4));
            r'.Ok(Upper(s.bars, at)) && s.next <= base && Holds(r', Region(base, r.Probed()))
  {
    hide Low, RoundUp, Ordered, Held, Laid, Pow2;
    Placed(s, at);
    Places(s.bars[at], Upper(s.bars, at), RoundUp(s.next, s.bars[at].Exp()));
  }

  lemma {:induction false} AssignKeepsSound(s: Allocation, at: nat)
    requires Sound(s) && at < |s.bars|
    ensures Sound(Assign(s, at))
  {
    hide Low, Pow2, RoundUp, Ordered, Held, Holds, Laid, Register.Ok;
    if Fits(s, at) {
      var r := s.bars[at];
      PlacedHolds(s, at);
      var base := RoundUp(s.next, r.Exp());
      LaidNext(s.bars, at, base + Low(r.value, 4));
      Extends(s.regions, s.next, Region(base, r.Probed()));
      HoldsNext(s.bars, s.regions, s.current, at, r.(value := base + Low(r.value, 4)), Region(base, r.Probed()));
    }
  }

  lemma {:induction false} EveryRunSound(s: Allocation, ats: seq<nat>)
    requires Sound(s) && forall i | 0 <= i < |ats| :: ats[i] < |s.bars|
    ensures Sound(AssignAll(s, ats))
    decreases |ats|
  {
    if ats != [] {
      EveryRunSound(s, ats[..|ats| - 1]);
      AssignKeepsSound(AssignAll(s, ats[..|ats| - 1]), ats[|ats| - 1]);
    }
  }

  /** What placements leave alone: the kind of every register, and one that is given no size altogether. */
  lemma {:induction false} KeptByAll(s: Allocation, ats: seq<nat>, b: nat)
    requires (forall i | 0 <= i < |ats| :: ats[i] < |s.bars|) && b < |s.bars|
    ensures var r := AssignAll(s, ats).bars[b];
            && r == s.bars[b].(value := r.value) && (s.bars[b].Probed() == 0 ==> r == s.bars[b])
    decreases |ats|
  {
    if ats != [] {
      hide Fits, Low, Pow2, RoundUp;
      KeptByAll(s, ats[..|ats| - 1], b);
    }
  }

  /** The range handed out for a register in an allocation. */
  function Given(s: Allocation, at: nat): Region
    requires at in s.current && s.current[at] < |s.regions|
  {
    s.regions[s.current[at]]
  }

  /** After any sequence of placements the ranges handed out are in the window, aligned to their sizes, and those of
      different registers disjoint. */
  lemma {:induction false} GivenRangesDisjoint(s: Allocation, ats: seq<nat>, a: nat, b: nat)
    requires Sound(s) && forall i | 0 <= i < |ats| :: ats[i] < |s.bars|
    requires a in AssignAll(s, ats).current && b in AssignAll(s, ats).current && a != b
    ensures var e := AssignAll(s, ats);
            && a < |s.bars| && b < |s.bars| && e.current[a] < |e.regions| && e.current[b] < |e.regions|
            && 0x4000_0000 <= Given(e, a).base && Given(e, a).End() <= 0x5000_0000
            && Given(e, a).size > 0 && Given(e, a).base % Given(e, a).size == 0
            && (Given(e, a).End() <= Given(e, b).base || Given(e, b).End() <= Given(e, a).base)
  {
    var e := AssignAll(s, ats);
    EveryRunSound(s, ats);
    assert Holds(e.bars[a], e.regions[e.current[a]]) && Holds(e.bars[b], e.regions[e.current[b]]);
    AlignedMeans(e.regions[e.current[a]].base, e.bars[a].Exp());
  }

  /** In terms of what a register reads after the placements. */
  lemma {:induction false} DecodedFromGiven(bars: seq<Register>, at: nat, g: Region)
    requires Laid(bars) && at < |bars| && Holds(bars[at], g)
    ensures Upper(bars, at) ==> RangeSize(bars, at) == 0 < g.size
    ensures !Upper(bars, at) ==>
              && Decoded(bars, at) == Region(g.base + 0x1_0000_0000 * UpperValue(bars, at), g.size)
              && (bars[at].Is64() ==> Paired(bars, at) && bars[at + 1].Probed() == 0)
  {
    hide Low, Pow2;
    var r := bars[at];
    assert r.Ok(Upper(bars, at)) && (r.Is64() ==> Paired(bars, at));
    assert g.size > 0;
    if !Upper(bars, at) {
      LowLow(r.value, 4, r.bits);
      LowFlags(r.flags);
      if r.Is64() {
        assert Upper(bars, at + 1) && bars[at + 1].Ok(Upper(bars, at + 1));
      }
    }
  }

  lemma {:induction false} LowFlags(flags: nat)
    requires flags < 16
    ensures Low(flags, 4) == flags
  {
    PowersOfTwo();
    LowAll(flags, 4);
  }

  /** The facts about one register after any sequence of placements. */
  lemma {:induction false} AfterAll(s: Allocation, ats: seq<nat>, at: nat)
    requires Sound(s) && (forall i | 0 <= i < |ats| :: ats[i] < |s.bars|) && at in AssignAll(s, ats).current
    ensures var e := AssignAll(s, ats);
            && Sound(e) && at < |e.bars| && e.current[at] < |e.regions| && Holds(e.bars[at], Given(e, at))
            && Given(e, at).InWindow() && Upper(e.bars, at) == Upper(s.bars, at)
            && (!Upper(s.bars, at) ==> UpperValue(e.bars, at) == UpperValue(s.bars, at))
  {
    var e := AssignAll(s, ats);
    EveryRunSound(s, ats);
    SoundLaid(s);
    OneHeld(e, at);
    KeptByAll(s, ats, at);
    assert s.bars[at].bits < 32;
    hide AssignAll, Sound, Laid, Holds, Upper, UpperValue, Given, Region.InWindow;
    UpperKept(s, ats, at);
    if !Upper(s.bars, at) {
      UpperValueKept(s, ats, at);
    }
  }

  lemma {:induction false} UpperValueKept(s: Allocation, ats: seq<nat>, at: nat)
    requires Laid(s.bars) && (forall i | 0 <= i < |ats| :: ats[i] < |s.bars|) && at < |s.bars| && s.bars[at].bits < 32
    ensures UpperValue(AssignAll(s, ats).bars, at) == UpperValue(s.bars, at)
  {
    hide AssignAll, Low, Pow2, Register.Ok;
    KeptByAll(s, ats, at);
    if s.bars[at].Is64() {
      assert Paired(s.bars, at);
      NoSize(s.bars, at + 1);
      KeptByAll(s, ats, at + 1);
    }
  }

  lemma NoSize(bars: seq<Register>, i: nat)
    requires Laid(bars) && i < |bars| && Upper(bars, i) && bars[i].bits == 0
    ensures bars[i].Probed() == 0
  {
    assert bars[i].Ok(Upper(bars, i));
  }

  lemma OneHeld(s: Allocation, at: nat)
    requires Sound(s) && at in s.current
    ensures at < |s.bars| && s.current[at] < |s.regions| && Holds(s.bars[at], Given(s, at)) && Given(s, at).InWindow()
  {
    hide Laid, Holds;
  }

  lemma {:induction false} UpperKept(s: Allocation, ats: seq<nat>, at: nat)
    requires (forall i | 0 <= i < |ats| :: ats[i] < |s.bars|) && at < |s.bars|
    ensures Upper(AssignAll(s, ats).bars, at) == Upper(s.bars, at)
  {
    hide AssignAll;
    if at > 0 { KeptByAll(s, ats, at - 1); }
  }

  /** A register answers to the range handed out for it exactly when it is not an upper half itself and its own
      upper half, if it has one, read 0 from the start: the code never writes that one. */
  lemma {:induction false} AnswersToGivenIff(s: Allocation, ats: seq<nat>, at: nat)
    requires Sound(s) && (forall i | 0 <= i < |ats| :: ats[i] < |s.bars|) && at in AssignAll(s, ats).current
    ensures var e := AssignAll(s, ats);
            && at < |s.bars| && e.current[at] < |e.regions|
            && (Decoded(e.bars, at) == Given(e, at) <==>
                  !Upper(s.bars, at)
                  && (s.bars[at].flags == 4 || s.bars[at].flags == 12 ==>
                        at + 1 < |s.bars| && s.bars[at + 1].value == 0))
  {
    UpperReads(s, ats, at);
    hide Sound, Holds;
    var e := AssignAll(s, ats);
    AfterAll(s, ats, at);
    assert Laid(e.bars) by { SoundLaid(e); }
    hide Decoded, RangeSize;
    DecodedFromGiven(e.bars, at, Given(e, at));
    UpperAnswersNothing(e.bars, at);
  }

  /** A 64-bit register has type bits 100, prefetchable or not, and its upper half behind it. */
  lemma {:induction false} UpperReads(s: Allocation, ats: seq<nat>, at: nat)
    requires Sound(s) && (forall i | 0 <= i < |ats| :: ats[i] < |s.bars|) && at in AssignAll(s, ats).current
    ensures at < |s.bars|
    ensures UpperValue(s.bars, at) == 0 <==>
            (s.bars[at].flags == 4 || s.bars[at].flags == 12 ==> at + 1 < |s.bars| && s.bars[at + 1].value == 0)
  {
    AfterAll(s, ats, at);
    KeptByAll(s, ats, at);
    hide AssignAll, Low, Pow2;
    var r := s.bars[at];
    assert r.Ok(Upper(s.bars, at)) && (r.Is64() ==> Paired(s.bars, at));
    TypeIs64(r.flags);
  }

  lemma TypeIs64(flags: nat)
    requires flags < 16
    ensures flags % 2 == 0 && flags / 2 % 4 == 2 <==> flags == 4 || flags == 12
  {}

  lemma SoundLaid(s: Allocation)
    requires Sound(s)
    ensures Laid(s.bars)
  {}

  lemma UpperAnswersNothing(bars: seq<Register>, at: nat)
    requires at < |bars|
    ensures Decoded(bars, at).size == RangeSize(bars, at)
  {}

  /** The range a placed register starts lies in the window exactly when its upper half, if it has one, read 0. */
  lemma {:induction false} InWindowIff(s: Allocation, ats: seq<nat>, at: nat)
    requires Sound(s) && (forall i | 0 <= i < |ats| :: ats[i] < |s.bars|) && at in AssignAll(s, ats).current
    requires at < |s.bars| ==> !Upper(s.bars, at)
    ensures at < |s.bars|
    ensures var g := Decoded(AssignAll(s, ats).bars, at);
            0x4000_0000 <= g.base && g.End() <= 0x5000_0000 <==>
            (s.bars[at].flags == 4 || s.bars[at].flags == 12 ==> at + 1 < |s.bars| && s.bars[at + 1].value == 0)
  {
    UpperReads(s, ats, at);
    hide Sound, Holds, Decoded, RangeSize, UpperValue;
    var e := AssignAll(s, ats);
    AfterAll(s, ats, at);
    assert Laid(e.bars) by { SoundLaid(e); }
    DecodedFromGiven(e.bars, at, Given(e, at));
  }

  /** The ranges that any two placed registers start are disjoint, wherever they lie. */
  lemma {:induction false} DecodedDisjoint(s: Allocation, ats: seq<nat>, a: nat, b: nat)
    requires Sound(s) && forall i | 0 <= i < |ats| :: ats[i] < |s.bars|
    requires a in AssignAll(s, ats).current && b in AssignAll(s, ats).current && a != b
    requires a < |s.bars| && b < |s.bars| && !Upper(s.bars, a) && !Upper(s.bars, b)
    ensures var e := AssignAll(s, ats);
            || Decoded(e.bars, a).End() <= Decoded(e.bars, b).base
            || Decoded(e.bars, b).End() <= Decoded(e.bars, a).base
  {
    hide Sound, Holds, Decoded, RangeSize, UpperValue, AssignAll, Laid, Upper, Pow2;
    var e := AssignAll(s, ats);
    AfterAll(s, ats, a);
    AfterAll(s, ats, b);
    SoundLaid(e);
    DecodedFromGiven(e.bars, a, Given(e, a));
    DecodedFromGiven(e.bars, b, Given(e, b));
    GivenRangesDisjoint(s, ats, a, b);
    ShiftedDisjoint(Given(e, a), UpperValue(e.bars, a), Given(e, b), UpperValue(e.bars, b));
  }

  lemma ShiftedDisjoint(g: Region, u: nat, g': Region, u': nat)
    requires g.InWindow() && g'.InWindow() && (g.End() <= g'.base || g'.End() <= g.base)
    ensures var (d, d') := (Region(g.base + 0x1_0000_0000 * u, g.size), Region(g'.base + 0x1_0000_0000 * u', g'.size));
            d.End() <= d'.base || d'.End() <= d.base
  {}

  /** Placing an upper half moves the range of its lower half, which asks for 8 GB or more, far behind the window. */
  lemma {:induction false} UpperHalfMoves(s: Allocation, ats: seq<nat>, at: nat)
    requires Sound(s) && (forall i | 0 <= i < |ats| :: ats[i] < |s.bars|) && at in AssignAll(s, ats).current
    requires at < |s.bars| ==> Upper(s.bars, at)
    ensures 0 < at < |s.bars| && Huge(s.bars[at - 1])
    ensures Decoded(AssignAll(s, ats).bars, at - 1).base >= 0x1_0000_0000 * MMIO_BASE
    ensures Decoded(AssignAll(s, ats).bars, at - 1).size >= 0x2_0000_0000
  {
    hide Low, AssignAll, Pow2, RangeSize, Sound, Holds;
    var e := AssignAll(s, ats);
    AfterAll(s, ats, at);
    KeptByAll(s, ats, at - 1);
    SoundLaid(e);
    UpperHeld(e.bars, at, Given(e, at));
  }

  lemma {:induction false} UpperHeld(bars: seq<Register>, at: nat, g: Region)
    requires Laid(bars) && at < |bars| && Upper(bars, at) && Holds(bars[at], g)
    ensures 0 < at && Huge(bars[at - 1]) && UpperValue(bars, at - 1) >= g.base
    ensures RangeSize(bars, at - 1) >= 0x2_0000_0000
  {
    hide Pow2, Low, RangeSize;
    assert Paired(bars, at - 1);
    HugeRange(bars, at - 1);
    DoubleWord(bars[at].bits);
  }

  lemma {:induction false} DoubleWord(bits: nat)
    requires bits > 0
    ensures Pow2(32 + bits) >= 0x2_0000_0000
  {
    PowersOfTwo();
    Pow2Grows(33, 32 + bits);
    assert Pow2(33) == 2 * Pow2(32);
    hide Pow2;
  }

  lemma {:induction false} HugeRange(bars: seq<Register>, i: nat)
    requires Laid(bars) && i < |bars| && Huge(bars[i])
    ensures i + 1 < |bars| && RangeSize(bars, i) == Pow2(32 + bars[i + 1].bits)
  {
    hide Pow2, Low;
    assert Paired(bars, i) && bars[i].Ok(Upper(bars, i));
  }

  /** A register that is not implemented. */
  const NONE: Register := Register(32, 32, 0, 0)

  /** A device with one 64-bit range, before anything is placed. */
  ghost function OneRange(low: Register, high: Register): Allocation {
    Allocation(MMIO_BASE, [low, high, NONE, NONE, NONE, NONE], [], map[])
  }

  lemma {:induction false} OneRangeSound(low: Register, high: Register)
    requires low.Ok(false) && low.Is64() && high.Ok(true) && (high.bits == 0 || low.bits == 32)
    ensures Sound(OneRange(low, high))
  {
    hide Pow2;
    var bars := OneRange(low, high).bars;
    LowZero(32);
    assert NONE.Ok(false);
    assert forall i: nat | i < 6 :: bars[i].Ok(Upper(bars, i));
  }

  lemma {:induction false} LowSmall(x: nat, k: nat)
    requires x < 16 && 4 <= k
    ensures Low(x, k) == x
  {
    PowersOfTwo();
    Pow2Grows(4, k);
    LowAll(x, k);
  }

  /** The window starts at a multiple of every size up to 1 GB. */
  lemma {:induction false} BaseAligned(k: nat)
    requires k <= 30
    ensures RoundUp(MMIO_BASE, k) == MMIO_BASE
  {
    hide RoundUp, Low, Pow2;
    PowersOfTwo();
    Pow2Sum(16, 8);
    Pow2Sum(24, 4);
    Pow2Sum(28, 2);
    Pow2Sum(30 - k, k);
    LowOfSum(Pow2(30 - k), k, 0);
    LowZero(k);
    RoundsUp(MMIO_BASE, k);
    RoundUpIsLeast(MMIO_BASE, k, MMIO_BASE);
  }

  /** The first register placed gets the start of the window. */
  lemma {:induction false} FirstPlaced(s: Allocation, at: nat)
    requires s.next == MMIO_BASE && s.regions == [] && s.current == map[] && at < |s.bars|
    requires !s.bars[at].IsIo() && 1 <= s.bars[at].bits <= 24
    ensures var r := s.bars[at];
            Assign(s, at) == Allocation(MMIO_BASE + r.Probed(), s.bars[at := r.(value := MMIO_BASE + Low(r.value, 4))],
                                        [Region(MMIO_BASE, r.Probed())], map[at := 0])
  {
    BaseAligned(s.bars[at].Exp());
    PowersOfTwo();
    Pow2Grows(s.bars[at].Exp(), 24);
    hide Pow2, Low, RoundUp;
    assert [] + [Region(MMIO_BASE, s.bars[at].Probed())] == [Region(MMIO_BASE, s.bars[at].Probed())];
  }

  /** A range of 64 GB at 64 GB: its upper half is given 16 bytes at the start of the window, which moves the range. */
  lemma {:induction false} UpperOf64GbMisread()
    ensures var s := OneRange(Register(32, 32, 4, 4), Register(4, 32, 0, 0x10));
            var e := Assign(s, 1);
            && Sound(s) && s.bars[1].Probed() == 16 && Decoded(s.bars, 0) == Region(0x10_0000_0000, 0x10_0000_0000)
            && Decoded(e.bars, 0) == Region(0x1_0000_0000 * MMIO_BASE, 0x10_0000_0000)
  {
    hide Low, Pow2;
    var low, high := Register(32, 32, 4, 4), Register(4, 32, 0, 0x10);
    var s := OneRange(low, high);
    PowersOfTwo();
    Pow2Sum(32, 4);
    LowSmall(4, 32);
    LowOfSum(1, 4, 0);
    LowZero(4);
    LowAll(0x10, 32);
    OneRangeSound(low, high);
    FirstPlaced(s, 1);
  }

  /** A range of 1 MB at 32 GB: it is given the start of the window, and answers 32 GB above it. */
  lemma {:induction false} Above4GbMissed()
    ensures var s := OneRange(Register(20, 32, 4, 4), Register(0, 32, 0, 8));
            var e := AssignAll(s, [0, 1]);
            && Sound(s) && e.regions == [Region(MMIO_BASE, 0x10_0000)] && e.current == map[0 := 0]
            && Decoded(e.bars, 0) == Region(0x8_4000_0000, 0x10_0000)
  {
    hide Low, Pow2;
    var low, high := Register(20, 32, 4, 4), Register(0, 32, 0, 8);
    var s := OneRange(low, high);
    PowersOfTwo();
    Pow2Sum(16, 4);
    LowSmall(4, 20);
    LowSmall(4, 32);
    LowSmall(4, 4);
    LowSmall(8, 32);
    LowNone(8);
    OneRangeSound(low, high);
    FirstPlaced(s, 0);
    KeepsBits(0x4000_0004);
    TwoTurns(s);
  }

  lemma LowNone(x: nat)
    ensures Low(x, 0) == 0
  {}

  lemma {:induction false} KeepsBits(v: nat)
    requires v == MMIO_BASE + 4
    ensures Low(v, 20) == 4
  {
    hide Low, Pow2;
    PowersOfTwo();
    Pow2Sum(16, 4);
    LowOfSum(0x400, 20, 4);
    LowSmall(4, 20);
  }

  lemma {:induction false} TwoTurns(s: Allocation)
    requires 1 < |s.bars|
    ensures AssignAll(s, [0, 1]) == Assign(Assign(s, 0), 1)
  {
    hide Assign;
    assert [0, 1][..1] == [0] && [0][..0] == [];
    assert AssignAll(s, []) == s;
    assert AssignAll(s, [0]) == Assign(s, 0);
  }

  /** The ranges handed out from a fresh window leave no more between them than their alignment asks for: each starts at
      the first multiple of its size behind the one before, and the cursor is the end of the last. */
  ghost predicate Tight(s: Allocation) {
    s.next == EndBefore(s.regions, |s.regions|) && forall i | 0 <= i < |s.regions| :: Follows(EndBefore(s.regions, i), s.regions[i])
  }

  function EndBefore(regions: seq<Region>, i: nat): nat
    requires i <= |regions|
  {
    if i == 0 then 0x4000_0000 else regions[i - 1].End()
  }

  ghost predicate Follows(from: nat, g: Region) {
    g.size > 0 && from <= g.base < from + g.size && g.base % g.size == 0
  }

  lemma {:induction false} AssignKeepsTight(s: Allocation, at: nat)
    requires Sound(s) && at < |s.bars| && Tight(s)
    ensures Tight(Assign(s, at))
  {
    hide Low, Pow2, RoundUp, Sound, Aligned;
    if Fits(s, at) {
      var r := s.bars[at];
      var base := RoundUp(s.next, r.Exp());
      Placed(s, at);
      RoundsUp(s.next, r.Exp());
      AlignedMeans(base, r.Exp());
      ProbedPower(r);
      hide Register.Probed, Fits, Follows;
      assert Follows(s.next, Region(base, r.Probed())) by { FollowsNext(s.next, base, r.Probed()); }
      TightNext(s, Assign(s, at), Region(base, r.Probed()));
    }
  }

  lemma ProbedPower(r: Register)
    ensures !r.IsIo() && r.Probed() > 0 ==> r.Probed() == Pow2(r.Exp())
  {
    hide Pow2;
  }

  lemma FollowsNext(from: nat, base: nat, size: nat)
    requires size > 0 && from <= base < from + size && base % size == 0
    ensures Follows(from, Region(base, size))
  {}

  lemma {:induction false} TightNext(s: Allocation, s': Allocation, g: Region)
    requires Tight(s) && s'.regions == s.regions + [g] && s'.next == g.End() && Follows(s.next, g)
    ensures Tight(s')
  {
    hide Follows;
    forall i | 0 <= i < |s'.regions|
      ensures Follows(EndBefore(s'.regions, i), s'.regions[i])
    {
      assert i < |s.regions| ==> EndBefore(s'.regions, i) == EndBefore(s.regions, i);
    }
  }

  lemma {:induction false} EveryRunTight(s: Allocation, ats: seq<nat>)
    requires Sound(s) && Tight(s) && forall i | 0 <= i < |ats| :: ats[i] < |s.bars|
    ensures Tight(AssignAll(s, ats))
    decreases |ats|
  {
    if ats != [] {
      EveryRunSound(s, ats[..|ats| - 1]);
      EveryRunTight(s, ats[..|ats| - 1]);
      AssignKeepsTight(AssignAll(s, ats[..|ats| - 1]), ats[|ats| - 1]);
    }
  }

  /** A register taken to ask for memory is refused only if no aligned range from the cursor on would fit. */
  lemma {:induction false} RefusedIffNoRoom(s: Allocation, at: nat)
    requires Sound(s) && at < |s.bars| && !s.bars[at].IsIo() && s.bars[at].Probed() > 0
    ensures Fits(s, at) <==>
            exists base: nat ::
              s.next <= base && Aligned(base, s.bars[at].Exp()) && base + s.bars[at].Probed() <= 0x5000_0000
  {
    RoundsUp(s.next, s.bars[at].Exp());
    forall base: nat | s.next <= base && Aligned(base, s.bars[at].Exp())
      ensures RoundUp(s.next, s.bars[at].Exp()) <= base
    {
      RoundUpIsLeast(s.next, s.bars[at].Exp(), base);
    }
  }
}
