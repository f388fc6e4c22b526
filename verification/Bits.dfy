/** Bitwise operators of C's unsigned types, on natural numbers, and their arithmetic meaning. */
module Bits {

  function Pow2(n: nat): (p: nat)
    ensures p > 0
  {
    if n == 0 then 1 else 2 * Pow2(n - 1)
  }

  /** `x & y` */
  function And(x: nat, y: nat): (a: nat)
    ensures a <= x && a <= y
  {
    if x == 0 || y == 0 then 0 else 2 * And(x / 2, y / 2) + if x % 2 == 1 && y % 2 == 1 then 1 else 0
  }

  /** `x | y` */
  function Or(x: nat, y: nat): nat {
    if x == 0 then y else if y == 0 then x
    else 2 * Or(x / 2, y / 2) + if x % 2 == 1 || y % 2 == 1 then 1 else 0
  }

  /** `~x` in 32 bits. */
  function Not32(x: nat): nat
    requires x < 0x1_0000_0000
  {
    0xFFFF_FFFF - x
  }

  /** `~x` in 64 bits. */
  function Not64(x: nat): nat
    requires x < 0x1_0000_0000_0000_0000
  {
    0xFFFF_FFFF_FFFF_FFFF - x
  }

  /** `x >> n` */
  function Shr(x: nat, n: nat): nat {
    if n == 0 then x else Shr(x / 2, n - 1)
  }

  /** The low `n` bits of `x`. */
  function Low(x: nat, n: nat): (l: nat)
    ensures l <= x
  {
    if n == 0 then 0 else 2 * Low(x / 2, n - 1) + x % 2
  }

  lemma {:induction false} Twice(q: nat, p: nat)
    ensures q * (2 * p) == 2 * (q * p)
  {}

  lemma {:induction false} Halves(x: nat, q: nat, p: nat, l: nat)
    requires x / 2 == q * p + l && l < p
    ensures x == q * (2 * p) + (2 * l + x % 2) && 2 * l + x % 2 < 2 * p
  {
    Twice(q, p);
  }

  lemma {:induction false} UnfoldShifts(x: nat, n: nat)
    requires n > 0
    ensures Shr(x, n) == Shr(x / 2, n - 1) && Pow2(n) == 2 * Pow2(n - 1) && Low(x, n) == 2 * Low(x / 2, n - 1) + x % 2
  {}

  /** Shift and low bits are quotient and remainder. */
  lemma {:induction false} Euclid(x: nat, n: nat)
    ensures x == Shr(x, n) * Pow2(n) + Low(x, n) && Low(x, n) < Pow2(n)
    decreases n
  {
    if n > 0 {
      Euclid(x / 2, n - 1);
      Halves(x, Shr(x / 2, n - 1), Pow2(n - 1), Low(x / 2, n - 1));
      UnfoldShifts(x, n);
      hide Shr, Low, Pow2;
    }
  }

  /** A number below `2^n` is its low `n` bits. */
  lemma {:induction false} LowAll(x: nat, n: nat)
    requires x < Pow2(n)
    ensures Low(x, n) == x
    decreases n
  {
    if n > 0 {
      LowAll(x / 2, n - 1);
    }
  }

  lemma {:induction false} LowZero(n: nat)
    ensures Low(0, n) == 0
    decreases n
  {
    if n > 0 {
      LowZero(n - 1);
    }
  }

  lemma {:induction false} Pow2Grows(k: nat, m: nat)
    requires k <= m
    ensures Pow2(k) <= Pow2(m)
    decreases m
  {
    if k < m {
      Pow2Grows(k, m - 1);
    }
  }

  /** A mask of `m` ones keeps the low `m` bits. */
  lemma {:induction false} AndOnes(x: nat, m: nat)
    ensures And(x, Pow2(m) - 1) == Low(x, m)
    decreases m
  {
    if x == 0 {
      LowZero(m);
    } else if m > 0 {
      AndOnes(x / 2, m - 1);
      assert (Pow2(m) - 1) / 2 == Pow2(m - 1) - 1;
    }
  }

  lemma AndZero(y: nat)
    ensures And(0, y) == 0
  {}

  lemma AndEven(x: nat, mask: nat)
    ensures And(x, 2 * mask) == 2 * And(x / 2, mask)
  {
    if x != 0 && mask != 0 {
      var y := 2 * mask;
      assert y / 2 == mask && y % 2 == 0;
      assert And(x, y) == 2 * And(x / 2, y / 2);
    }
  }

  /** A mask of ones in positions `k` to `m - 1` keeps exactly those bits. */
  lemma {:induction false} AndField(x: nat, k: nat, m: nat)
    requires k <= m
    ensures Pow2(k) <= Pow2(m)
    ensures And(x, Pow2(m) - Pow2(k)) == Low(x, m) - Low(x, k)
    decreases m
  {
    hide And;
    Pow2Grows(k, m);
    if x == 0 {
      AndZero(Pow2(m) - Pow2(k));
      LowZero(m);
      LowZero(k);
    } else if k > 0 {
      Pow2Grows(k - 1, m - 1);
      AndField(x / 2, k - 1, m - 1);
      AndEven(x, Pow2(m - 1) - Pow2(k - 1));
    } else {
      AndOnes(x, m);
    }
  }

  lemma {:induction false} PowersOfTwo()
    ensures Pow2(2) == 4 && Pow2(4) == 16 && Pow2(8) == 0x100 && Pow2(16) == 0x1_0000
    ensures Pow2(24) == 0x100_0000 && Pow2(32) == 0x1_0000_0000
  {
    assert Pow2(2) == 4;
    assert Pow2(4) == 16;
    assert Pow2(6) == 64;
    assert Pow2(8) == 0x100;
    Pow2Sum(8, 8);
    Pow2Sum(16, 8);
    Pow2Sum(16, 16);
  }

  lemma {:induction false} Pow2Sum(a: nat, b: nat)
    ensures Pow2(a + b) == Pow2(a) * Pow2(b)
    decreases b
  {
    if b > 0 {
      Pow2Sum(a, b - 1);
      Twice(Pow2(a), Pow2(b - 1));
    }
  }

  /** A mask of ones from position `k` up clears the low bits. */
  lemma {:induction false} AndHigh(x: nat, k: nat, m: nat)
    requires k <= m && x < Pow2(m)
    ensures Pow2(k) <= Pow2(m)
    ensures And(x, Pow2(m) - Pow2(k)) == x - Low(x, k)
  {
    AndField(x, k, m);
    LowAll(x, m);
    Euclid(x, k);
  }

  /** Or-ing fields that do not overlap adds them. */
  lemma {:induction false} OrDisjoint(a: nat, k: nat, b: nat)
    requires b < Pow2(k)
    ensures Or(a * Pow2(k), b) == a * Pow2(k) + b
    decreases k
  {
    if k > 0 {
      var p := Pow2(k - 1);
      Twice(a, p);
      OrDisjoint(a, k - 1, b / 2);
      OrEven(a * p, b);
    }
  }

  lemma {:induction false} OrEven(x: nat, b: nat)
    requires Or(x, b / 2) == x + b / 2
    ensures Or(2 * x, b) == 2 * x + b
  {
    if x != 0 && b != 0 {
      var y := 2 * x;
      assert y / 2 == x && y % 2 == 0;
      assert Or(y, b) == 2 * Or(y / 2, b / 2) + b % 2;
    }
  }

  lemma {:induction false} OrCommutes(x: nat, y: nat)
    ensures Or(x, y) == Or(y, x)
    decreases x
  {
    if x > 0 && y > 0 {
      OrCommutes(x / 2, y / 2);
    }
  }

  /** Multiples of `2^k` do not touch the low `k` bits. */
  lemma {:induction false} LowOfSum(q: nat, k: nat, b: nat)
    ensures Low(q * Pow2(k) + b, k) == Low(b, k)
    decreases k
  {
    if k > 0 {
      var p := Pow2(k - 1);
      assert Pow2(k) == 2 * p;
      hide Pow2, Low;
      Twice(q, p);
      LowOfSum(q, k - 1, b / 2);
      LowEven(q * p, b, k);
    }
  }

  lemma {:induction false} LowEven(x: nat, b: nat, k: nat)
    requires k > 0 && Low(x + b / 2, k - 1) == Low(b / 2, k - 1)
    ensures Low(2 * x + b, k) == Low(b, k)
  {
    var y := 2 * x + b;
    assert y / 2 == x + b / 2 && y % 2 == b % 2;
  }

  /** Fewer low bits of the low bits. */
  lemma {:induction false} LowLow(x: nat, k: nat, m: nat)
    requires k <= m
    ensures Low(Low(x, m), k) == Low(x, k)
    decreases k
  {
    if k > 0 {
      assert Low(x, m) / 2 == Low(x / 2, m - 1) && Low(x, m) % 2 == x % 2;
      LowLow(x / 2, k - 1, m - 1);
    }
  }
}
