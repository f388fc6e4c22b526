/** The structure block of a flattened device tree, byte by byte: reading one token, and writing one.

    Layout and token values follow sections 5.2, 5.4.1 and 5.4.2 of the Devicetree Specification v0.4. A
    position is an offset from the start of the blob. */
module Fdt {
  import opened Bits
  import opened Bytes

  const MAGIC: nat := 0xd00d_feed
  const BEGIN_NODE: nat := 1
  const END_NODE: nat := 2
  const PROP: nat := 3
  const NOP: nat := 4
  const FIN: nat := 9

  const U32: nat := 0x1_0000_0000

  // ---------------------------------------------------------------- words

  /** A 32-bit word as it is stored on a little-endian CPU. */
  function LoadLe(b: seq<byte>): (w: nat)
    requires |b| == 4
    ensures w < U32
  {
    (b[0] as int) + 0x100 * (b[1] as int) + 0x1_0000 * (b[2] as int) + 0x100_0000 * (b[3] as int)
  }

  /** `be32_to_cpu`: the four bytes of a word, swapped by masks and shifts. */
  function Be32ToCpu(v: nat): nat
    requires v < U32
  {
    Or(Or(Or(Shr(And(v, 0xFF00_0000), 24), Shr(And(v, 0x00FF_0000), 8)), And(v, 0x0000_FF00) * 0x100),
       And(v, 0x0000_00FF) * 0x100_0000)
  }

  /** The big-endian reading of four bytes. */
  function Be32(b: seq<byte>): (w: nat)
    requires |b| == 4
    ensures w < U32
  {
    0x100_0000 * (b[0] as int) + 0x1_0000 * (b[1] as int) + 0x100 * (b[2] as int) + (b[3] as int)
  }

  /** The number whose digits to the base 256 are the bytes of `b`, most significant first. */
  function BigEndian(b: seq<byte>): nat {
    if b == [] then 0 else 0x100 * BigEndian(b[..|b| - 1]) + b[|b| - 1]
  }

  lemma {:induction false} Be32IsBigEndian(b: seq<byte>)
    requires |b| == 4
    ensures Be32(b) == BigEndian(b)
  {
    assert b[..3][..2] == b[..2] && b[..2][..1] == b[..1] && b[..1][..0] == [];
    assert BigEndian(b[..1]) == b[0] && BigEndian(b[..2]) == 0x100 * (b[0] as int) + b[1];
    assert BigEndian(b[..3]) == 0x100 * BigEndian(b[..2]) + b[2];
  }

  /** `align_up`: `(val + 3) & ~3` in 32 bits. */
  function AlignUpC(v: nat): nat
    requires v < U32
  {
    And((v + 3) % U32, Not32(3))
  }

  /** The next multiple of four. */
  function AlignUp(v: nat): (a: nat)
    ensures v <= a < v + 4 && a % 4 == 0
  {
    v + 3 - (v + 3) % 4
  }

  lemma AlignedSum(a: nat, b: nat)
    requires a % 4 == 0 && b % 4 == 0
    ensures (a + b) % 4 == 0
  {}

  /** The mask `~3` clears the remainder modulo four. */
  lemma {:induction false} AndNot3(x: nat)
    requires x < U32
    ensures And(x, Not32(3)) == x - x % 4
  {
    PowersOfTwo();
    AndHigh(x, 2, 32);
    assert Low(x / 2, 1) == x / 2 % 2;
    assert Low(x, 2) == x % 4;
  }

  lemma {:induction false} AlignUpMeaning(v: nat)
    requires v + 3 < U32
    ensures AlignUpC(v) == AlignUp(v)
  {
    AndNot3(v + 3);
  }

  /** `read_be32_unaligned`: four byte loads, shifted into place. */
  function ReadBe32Unaligned(b: seq<byte>): nat
    requires |b| == 4
  {
    Or(Or(Or((b[0] as int) * 0x100_0000, (b[1] as int) * 0x1_0000), (b[2] as int) * 0x100), b[3] as int)
  }

  lemma {:induction false} ReadsBigEndian(b: seq<byte>)
    requires |b| == 4
    ensures ReadBe32Unaligned(b) == Be32(b)
  {
    PowersOfTwo();
    var b0, b1, b2, b3 := b[0] as int, b[1] as int, b[2] as int, b[3] as int;
    OrDisjoint(b0, 24, b1 * 0x1_0000);
    OrDisjoint(b0 * 0x100 + b1, 16, b2 * 0x100);
    OrDisjoint(b0 * 0x1_0000 + b1 * 0x100 + b2, 8, b3);
  }

  /** A mask of ones from position `k` to `m - 1`, as a difference of remainders. */
  lemma {:induction false} AndRemainders(v: nat, k: nat, m: nat, mask: nat, lo: nat, hi: nat)
    requires k <= m && Pow2(m) == mask + Pow2(k) && Low(v, k) == lo && Low(v, m) == hi
    ensures And(v, mask) == hi - lo
  {
    AndField(v, k, m);
  }

  /** The byte fields of a word, as masks see them. */
  lemma {:induction false} WordFields(v: nat)
    requires v < U32
    ensures And(v, 0x0000_00FF) == v % 0x100
    ensures And(v, 0x0000_FF00) == v % 0x1_0000 - v % 0x100
    ensures And(v, 0x00FF_0000) == v % 0x100_0000 - v % 0x1_0000
    ensures And(v, 0xFF00_0000) == v - v % 0x100_0000
  {
    hide And, Low;
    PowersOfTwo();
    Lows(v);
    assert Pow2(0) == 1;
    hide Pow2;
    AndRemainders(v, 0, 8, 0x0000_00FF, 0, v % 0x100);
    AndRemainders(v, 8, 16, 0x0000_FF00, v % 0x100, v % 0x1_0000);
    AndRemainders(v, 16, 24, 0x00FF_0000, v % 0x1_0000, v % 0x100_0000);
    AndRemainders(v, 24, 32, 0xFF00_0000, v % 0x100_0000, v);
  }

  lemma LoadedBytes(b: seq<byte>)
    requires |b| == 4
    ensures LoadLe(b) % 0x100 == b[0] as int
    ensures LoadLe(b) % 0x1_0000 == (b[0] as int) + (b[1] as int) * 0x100
    ensures LoadLe(b) % 0x100_0000 == (b[0] as int) + (b[1] as int) * 0x100 + (b[2] as int) * 0x1_0000
  {}

  lemma {:induction false} Low8(v: nat)
    ensures Low(v, 8) == v % 0x100
  {
    hide Low, Shr, Pow2;
    PowersOfTwo();
    Euclid(v, 8);
  }

  lemma {:induction false} Low16(v: nat)
    ensures Low(v, 16) == v % 0x1_0000
  {
    hide Low, Shr, Pow2;
    PowersOfTwo();
    Euclid(v, 16);
  }

  lemma {:induction false} Low24(v: nat)
    ensures Low(v, 24) == v % 0x100_0000
  {
    hide Low, Shr, Pow2;
    PowersOfTwo();
    Euclid(v, 24);
  }

  lemma {:induction false} Lows(v: nat)
    requires v < U32
    ensures Low(v, 0) == 0 && Low(v, 8) == v % 0x100 && Low(v, 16) == v % 0x1_0000
    ensures Low(v, 24) == v % 0x100_0000 && Low(v, 32) == v
  {
    Low8(v);
    Low16(v);
    Low24(v);
    PowersOfTwo();
    LowAll(v, 32);
  }

  lemma {:induction false} ShiftBack(a: nat, n: nat)
    ensures Shr(a * Pow2(n), n) == a
    decreases n
  {
    if n > 0 {
      var p := Pow2(n - 1);
      assert a * (2 * p) == 2 * (a * p);
      assert 2 * (a * p) / 2 == a * p;
      ShiftBack(a, n - 1);
    }
  }

  lemma {:induction false} OrField(a: nat, k: nat, p: nat, b: nat)
    requires p == Pow2(k) && b < p
    ensures Or(b, a * p) == a * p + b
  {
    OrCommutes(b, a * p);
    OrDisjoint(a, k, b);
  }

  /** Or-ing four byte fields, lowest first. */
  lemma {:induction false} OrBytes(b0: nat, b1: nat, b2: nat, b3: nat)
    requires b1 < 0x100 && b2 < 0x100 && b3 < 0x100
    ensures Or(Or(Or(b3, b2 * 0x100), b1 * 0x1_0000), b0 * 0x100_0000)
         == b3 + b2 * 0x100 + b1 * 0x1_0000 + b0 * 0x100_0000
  {
    PowersOfTwo();
    OrField(b2, 8, 0x100, b3);
    OrField(b1, 16, 0x1_0000, b2 * 0x100 + b3);
    OrField(b0, 24, 0x100_0000, b1 * 0x1_0000 + (b2 * 0x100 + b3));
  }

  lemma {:induction false} ShiftedFields(b2: nat, b3: nat)
    ensures Shr(b3 * 0x100_0000, 24) == b3 && Shr(b2 * 0x1_0000, 8) == b2 * 0x100
  {
    PowersOfTwo();
    ShiftBack(b3, 24);
    ShiftBack(b2 * 0x100, 8);
  }

  /** Loading a word and swapping it reads it big-endian. */
  lemma {:induction false} SwapsToBigEndian(b: seq<byte>)
    requires |b| == 4
    ensures Be32ToCpu(LoadLe(b)) == Be32(b)
  {
    hide And, Low, Shr, Or;
    var b0, b1, b2, b3 := b[0] as int, b[1] as int, b[2] as int, b[3] as int;
    WordFields(LoadLe(b));
    LoadedBytes(b);
    ShiftedFields(b2, b3);
    OrBytes(b0, b1, b2, b3);
  }
}
