/** The Internet checksum (RFC 1071): its folding loop, and what headers completed with it satisfy. */
module Checksum {
  import opened Bytes

  // ---------------------------------------------------------------- host and network order

  /** `htons` and `ntohs` on a little-endian host. */
  function Htons(x: nat): (r: nat)
    requires x < 0x1_0000
    ensures r < 0x1_0000
  {
    x % 0x100 * 0x100 + x / 0x100
  }

  /** A 16-bit value in the host's memory. */
  function Le16(x: nat): (b: seq<byte>)
    requires x < 0x1_0000
    ensures |b| == 2
  {
    [x % 0x100, x / 0x100]
  }

  function Le32(x: nat): (b: seq<byte>)
    requires x < 0x1_0000_0000
    ensures |b| == 4
  {
    Le16(x % 0x1_0000) + Le16(x / 0x1_0000)
  }

  /** A value on the wire. */
  function Wire16(x: nat): (b: seq<byte>)
    requires x < 0x1_0000
    ensures |b| == 2
  {
    [x / 0x100, x % 0x100]
  }

  function Wire32(x: nat): (b: seq<byte>)
    requires x < 0x1_0000_0000
    ensures |b| == 4
  {
    Wire16(x / 0x1_0000) + Wire16(x % 0x1_0000)
  }

  lemma SwappedIsBigEndian(x: nat)
    requires x < 0x1_0000
    ensures Le16(Htons(x)) == Wire16(x)
  {}

  /** The 16-bit word at a position, in network order. */
  function Word(b: seq<byte>, i: nat): (w: nat)
    requires i + 1 < |b|
    ensures w < 0x1_0000
  {
    0x100 * b[i] as nat + b[i + 1]
  }

  /** A 32-bit field in network order. */
  function Word32(b: seq<byte>, i: nat): (v: nat)
    requires i + 3 < |b|
    ensures v < 0x1_0000_0000
  {
    Word(b, i) * 0x1_0000 + Word(b, i + 2)
  }

  lemma {:induction false} ReadsBack16(b: seq<byte>, i: nat, x: nat)
    requires x < 0x1_0000 && i + 1 < |b| && b[i..i + 2] == Wire16(x)
    ensures Word(b, i) == x
  {
    assert b[i] == b[i..i + 2][0] && b[i + 1] == b[i..i + 2][1];
  }

  lemma {:induction false} ReadsBack32(b: seq<byte>, i: nat, x: nat)
    requires x < 0x1_0000_0000 && i + 3 < |b| && b[i..i + 4] == Wire32(x)
    ensures Word32(b, i) == x
  {
    assert b[i..i + 2] == b[i..i + 4][..2] && b[i + 2..i + 4] == b[i..i + 4][2..];
    ReadsBack16(b, i, x / 0x1_0000);
    ReadsBack16(b, i + 2, x % 0x1_0000);
  }

  /** Writing what was read gives the same bytes. */
  lemma {:induction false} WordBytes(b: seq<byte>, i: nat)
    requires i + 3 < |b|
    ensures Wire32(Word32(b, i)) == b[i..i + 4]
  {
    assert Word32(b, i) / 0x1_0000 == Word(b, i) && Word32(b, i) % 0x1_0000 == Word(b, i + 2);
    assert Word(b, i) / 0x100 == b[i] && Word(b, i) % 0x100 == b[i + 1];
    assert Word(b, i + 2) / 0x100 == b[i + 2] && Word(b, i + 2) % 0x100 == b[i + 3];
  }

  function LoadLe16(lo: nat, hi: nat): nat {
    lo + 0x100 * hi
  }

  lemma {:induction false} LoadSwaps(lo: byte, hi: byte)
    ensures LoadLe16(lo, hi) < 0x1_0000 && Htons(LoadLe16(lo, hi)) == lo * 0x100 + hi
  {
    assert LoadLe16(lo, hi) % 0x100 == lo && LoadLe16(lo, hi) / 0x100 == hi;
  }

  // ---------------------------------------------------------------- sums

  /** The sum of the 16-bit words of `b`, an odd last byte padded with zero. */
  function Sum(b: seq<byte>): nat {
    if b == [] then 0
    else if |b| == 1 then b[0] * 0x100
    else b[0] * 0x100 + b[1] + Sum(b[2..])
  }

  lemma {:induction false} SumBound(b: seq<byte>)
    ensures Sum(b) <= 0xFFFF * ((|b| + 1) / 2)
    decreases |b|
  {
    if |b| >= 2 {
      SumBound(b[2..]);
    }
  }

  /** The 16-bit one's complement of a sum: the representative of its residue modulo 65535 in 1 .. 65535, or 0
      for 0. */
  function Folded(sum: nat): (f: nat)
    ensures f < 0x1_0000 && f % 0xFFFF == sum % 0xFFFF && (f == 0 <==> sum == 0)
  {
    if sum == 0 then 0 else (sum - 1) % 0xFFFF + 1
  }

  /** Nothing else has the residue of the sum and is zero only with it. */
  lemma {:induction false} FoldedUnique(sum: nat, f: nat)
    requires f < 0x1_0000 && f % 0xFFFF == sum % 0xFFFF && (f == 0 <==> sum == 0)
    ensures f == Folded(sum)
  {}

  /** The folding loop terminates with the folded sum. */
  method Fold(sum: nat) returns (r: nat)
    requires sum < 0x1_0000_0000
    ensures r == Folded(sum)
  {
    r := sum;
    while r / 0x1_0000 != 0
      invariant r < 0x1_0000_0000 && r % 0xFFFF == sum % 0xFFFF && (r == 0 <==> sum == 0)
      decreases r
    {
      FoldStep(r);
      r := r % 0x1_0000 + r / 0x1_0000;
    }
    FoldedUnique(sum, r);
  }

  lemma {:induction false} FoldStep(r: nat)
    ensures (r % 0x1_0000 + r / 0x1_0000) % 0xFFFF == r % 0xFFFF
  {
    var q, t := r / 0x1_0000, r % 0x1_0000;
    assert r == 0xFFFF * q + (q + t);
  }

  /** `~sum`, truncated to 16 bits. */
  function Complement(sum: nat): (c: nat)
    requires sum < 0x1_0000
    ensures c == 0xFFFF - sum
  {
    (0xFFFF_FFFF - sum) % 0x1_0000
  }

  // ---------------------------------------------------------------- completing and detecting

  /** `b` with the word at `i` replaced. */
  function SetWord(b: seq<byte>, i: nat, w: nat): seq<byte>
    requires i + 1 < |b| && w < 0x1_0000
  {
    b[i := w / 0x100][i + 1 := w % 0x100]
  }

  lemma {:induction false} SumSetWord(b: seq<byte>, i: nat, w: nat)
    requires i % 2 == 0 && i + 1 < |b| && w < 0x1_0000
    ensures Sum(SetWord(b, i, w)) == Sum(b) - Word(b, i) + w
    decreases i
  {
    if i == 0 {
      assert SetWord(b, i, w)[2..] == b[2..];
    } else {
      assert SetWord(b, i, w)[2..] == SetWord(b[2..], i - 2, w);
      SumSetWord(b[2..], i - 2, w);
    }
  }

  /** What a receiver checks: the words and the pseudo-header sum fold to all ones. */
  predicate Verifies(b: seq<byte>, pseudo: nat) {
    Folded(pseudo + Sum(b)) == 0xFFFF
  }

  // ---------------------------------------------------------------- as arithmetic on one number

  /** The number whose digits to the base 256 are the bytes of `b`. */
  function Number(b: seq<byte>): nat {
    if b == [] then 0 else 0x100 * Number(b[..|b| - 1]) + b[|b| - 1]
  }

  lemma {:induction false} SumLast(b: seq<byte>)
    requires |b| % 2 == 0 && b != []
    ensures Sum(b) == Sum(b[..|b| - 2]) + 0x100 * (b[|b| - 2] as int) + b[|b| - 1]
    decreases |b|
  {
    if |b| == 2 {
      assert b[2..] == [] && b[..0] == [];
    } else {
      SumLast(b[2..]);
      assert b[..|b| - 2][2..] == b[2..][..|b| - 4];
    }
  }

  lemma {:induction false} NextResidue(n: nat, s: nat, w: nat)
    requires n % 0xFFFF == s % 0xFFFF
    ensures (0x1_0000 * n + w) % 0xFFFF == (s + w) % 0xFFFF
  {
    var q, r := n / 0xFFFF, n % 0xFFFF;
    assert 0x1_0000 * n + w == 0xFFFF * n + (n + w);
    assert (0xFFFF * n + (n + w)) % 0xFFFF == (n + w) % 0xFFFF;
    var d := s / 0xFFFF;
    assert n == 0xFFFF * q + r && s == 0xFFFF * d + r;
    assert (0xFFFF * q + (r + w)) % 0xFFFF == (r + w) % 0xFFFF == (0xFFFF * d + (r + w)) % 0xFFFF;
  }

  /** The sum of the words and the number agree modulo 65535, because 65536 is 1 there; an odd last byte counts as if
      a zero followed. */
  lemma {:induction false} SumIsNumber(b: seq<byte>)
    ensures |b| % 2 == 0 ==> Sum(b) % 0xFFFF == Number(b) % 0xFFFF && (Sum(b) == 0 <==> Number(b) == 0)
    ensures |b| % 2 == 1 ==> Sum(b) == Sum(b + [0])
    decreases |b|
  {
    if |b| % 2 == 1 {
      OddSum(b);
    } else if b != [] {
      var a := b[..|b| - 2];
      SumIsNumber(a);
      SumLast(b);
      assert b[..|b| - 1][..|b| - 2] == a;
      assert Number(b) == 0x1_0000 * Number(a) + (0x100 * (b[|b| - 2] as int) + b[|b| - 1]);
      NextResidue(Number(a), Sum(a), 0x100 * (b[|b| - 2] as int) + b[|b| - 1]);
    }
  }

  lemma {:induction false} OddSum(b: seq<byte>)
    requires |b| % 2 == 1
    ensures Sum(b) == Sum(b + [0])
    decreases |b|
  {
    if |b| == 1 {
      assert (b + [0])[2..] == [];
    } else {
      assert (b + [0])[2..] == b[2..] + [0];
      OddSum(b[2..]);
    }
  }

  /** Bytes verify exactly when the number they are is a positive multiple of 65535. */
  lemma {:induction false} VerifiesIff(b: seq<byte>)
    requires |b| % 2 == 0
    ensures Verifies(b, 0) <==> Number(b) > 0 && Number(b) % 0xFFFF == 0
  {
    SumIsNumber(b);
    var s := Sum(b);
    assert s > 0 ==> (Folded(s) == 0xFFFF <==> s % 0xFFFF == 0);
  }

  /** Storing the complement of the folded sum where there was zero makes the whole verify. */
  lemma {:induction false} Completes(b: seq<byte>, pseudo: nat, i: nat)
    requires i % 2 == 0 && i + 1 < |b| && Word(b, i) == 0
    ensures Verifies(SetWord(b, i, 0xFFFF - Folded(pseudo + Sum(b))), pseudo)
  {
    var s := pseudo + Sum(b);
    SumSetWord(b, i, 0xFFFF - Folded(s));
    Cancels(s);
  }

  lemma {:induction false} Cancels(s: nat)
    ensures Folded(s + 0xFFFF - Folded(s)) == 0xFFFF
  {
    if s > 0 {
      var q := (s - 1) / 0xFFFF;
      assert s - 1 == 0xFFFF * q + (s - 1) % 0xFFFF;
      assert s + 0xFFFF - Folded(s) - 1 == 0xFFFF * q + 0xFFFE;
    }
  }

  /** Two sums that both fold to all ones differ by a multiple of 65535. */
  lemma {:induction false} AllOnesIff(s: nat)
    ensures Folded(s) == 0xFFFF <==> s > 0 && s % 0xFFFF == 0
  {
    FoldedUnique(s, Folded(s));
  }

  lemma {:induction false} SameResidue(rest: nat, w: nat, w': nat)
    requires w < 0x1_0000 && w' < 0x1_0000 && (rest + w) % 0xFFFF == 0
    ensures (rest + w') % 0xFFFF == 0 <==> w == w' || (w == 0 && w' == 0xFFFF) || (w == 0xFFFF && w' == 0)
  {
    var q := (rest + w) / 0xFFFF;
    assert rest + w == 0xFFFF * q;
    assert rest + w' == 0xFFFF * q + (w' - w);
    if (rest + w') % 0xFFFF == 0 {
      var q' := (rest + w') / 0xFFFF;
      assert w' - w == 0xFFFF * (q' - q);
    }
  }

  /** Changing one word of data that verifies, the other words not all zero, goes undetected exactly when it
      swaps 0x0000 and 0xFFFF. */
  lemma {:induction false} DetectsOneWord(b: seq<byte>, pseudo: nat, i: nat, w: nat)
    requires Verifies(b, pseudo) && i % 2 == 0 && i + 1 < |b| && w < 0x1_0000 && w != Word(b, i)
    requires pseudo + Sum(b) > Word(b, i)
    ensures Verifies(SetWord(b, i, w), pseudo) <==>
            (Word(b, i) == 0 && w == 0xFFFF) || (Word(b, i) == 0xFFFF && w == 0)
  {
    var rest := pseudo + Sum(b) - Word(b, i);
    SumSetWord(b, i, w);
    AllOnesIff(rest + Word(b, i));
    AllOnesIff(rest + w);
    SameResidue(rest, Word(b, i), w);
  }

  // ---------------------------------------------------------------- loops and stores shared by the protocols

  /** The loop over `n` words of a header, read in host order and swapped; no 32-bit overflow. */
  method SumHeader(a: array<byte>, at: nat, n: nat) returns (sum: nat)
    requires at + 2 * n <= a.Length && n <= 0x8000
    ensures sum == Sum(a[at..at + 2 * n]) < 0x1_0000_0000
  {
    ghost var b := a[at..at + 2 * n];
    sum := 0;
    for i := 0 to n
      invariant sum <= 0xFFFF * i && sum + Sum(b[2 * i..]) == Sum(b)
    {
      assert b[2 * i..][2..] == b[2 * (i + 1)..];
      LoadSwaps(a[at + 2 * i], a[at + 2 * i + 1]);
      sum := sum + Htons(LoadLe16(a[at + 2 * i], a[at + 2 * i + 1]));
    }
  }

  method Put8(a: array<byte>, at: nat, v: byte)
    requires at < a.Length
    modifies a
    ensures a[..] == Splice(old(a[..]), at, [v])
  {
    a[at] := v;
  }

  /** Store a 16-bit value in host order. */
  method Put16(a: array<byte>, at: nat, v: nat)
    requires at + 2 <= a.Length && v < 0x1_0000
    modifies a
    ensures a[..] == Splice(old(a[..]), at, Le16(v))
  {
    a[at] := v % 0x100;
    a[at + 1] := v / 0x100;
  }

  method Put32(a: array<byte>, at: nat, v: nat)
    requires at + 4 <= a.Length && v < 0x1_0000_0000
    modifies a
    ensures a[..] == Splice(old(a[..]), at, Le32(v))
  {
    ghost var m := a[..];
    Put16(a, at, v % 0x1_0000);
    Put16(a, at + 2, v / 0x1_0000);
    SpliceTwice(m, at, Le16(v % 0x1_0000), Le16(v / 0x1_0000));
  }

  /** `write_htons_unaligned`, `write_htonl_unaligned` */
  method PutWire16(a: array<byte>, at: nat, v: nat)
    requires at + 2 <= a.Length && v < 0x1_0000
    modifies a
    ensures a[..] == Splice(old(a[..]), at, Wire16(v))
  {
    a[at] := v / 0x100;
    a[at + 1] := v % 0x100;
  }

  method PutWire32(a: array<byte>, at: nat, v: nat)
    requires at + 4 <= a.Length && v < 0x1_0000_0000
    modifies a
    ensures a[..] == Splice(old(a[..]), at, Wire32(v))
  {
    ghost var m := a[..];
    PutWire16(a, at, v / 0x1_0000);
    PutWire16(a, at + 2, v % 0x1_0000);
    SpliceTwice(m, at, Wire16(v / 0x1_0000), Wire16(v % 0x1_0000));
  }

  /** Storing the word at an even position of a spliced stretch. */
  lemma {:induction false} SpliceWord(m: seq<byte>, at: nat, b: seq<byte>, i: nat, w: nat)
    requires at + |b| <= |m| && i + 1 < |b| && w < 0x1_0000
    ensures Splice(Splice(m, at, b), at + i, Wire16(w)) == Splice(m, at, SetWord(b, i, w))
  {}
}
