/** IPv4 headers without options (section 3.1 of RFC 791): building, and verifying. */
module Ipv4 {
  import opened Bytes
  import opened Checksum

  const SIZE: nat := 20
  /** Where the checksum is. */
  const CHECKSUM: nat := 10

  /** The header built for these arguments, its checksum zero. Addresses are as stored in host memory. */
  function Blank(src: nat, dst: nat, protocol: byte, payload: nat, ttl: byte): (b: seq<byte>)
    requires src < 0x1_0000_0000 && dst < 0x1_0000_0000
    ensures |b| == SIZE
  {
    [0x45] + [0] + Wire16((SIZE + payload) % 0x1_0000) + Wire16(1) + Wire16(0) + [ttl] + [protocol] + Wire16(0)
    + Le32(src) + Le32(dst)
  }

  /** The header with its checksum. */
  function Header(src: nat, dst: nat, protocol: byte, payload: nat, ttl: byte): (b: seq<byte>)
    requires src < 0x1_0000_0000 && dst < 0x1_0000_0000
    ensures |b| == SIZE
  {
    var blank := Blank(src, dst, protocol, payload, ttl);
    SetWord(blank, CHECKSUM, 0xFFFF - Folded(Sum(blank)))
  }

  /** Where every field of a built header is, byte by byte. */
  lemma {:induction false} HeaderFields(src: nat, dst: nat, protocol: byte, payload: nat, ttl: byte)
    requires src < 0x1_0000_0000 && dst < 0x1_0000_0000
    ensures var h := Header(src, dst, protocol, payload, ttl);
            && h[0] == 0x45 && h[1] == 0 && 0x100 * (h[2] as int) + h[3] == (20 + payload) % 0x1_0000
            && h[4..8] == [0, 1, 0, 0] && h[8] == ttl && h[9] == protocol
            && h[12..16] == [src % 0x100, src / 0x100 % 0x100, src / 0x1_0000 % 0x100, src / 0x100_0000]
            && h[16..20] == [dst % 0x100, dst / 0x100 % 0x100, dst / 0x1_0000 % 0x100, dst / 0x100_0000]
  {
    hide Sum, Folded;
    AddressBytes(src);
    AddressBytes(dst);
    assert Header(src, dst, protocol, payload, ttl)[12..16] == Le32(src);
    assert Header(src, dst, protocol, payload, ttl)[16..20] == Le32(dst);
  }

  lemma {:induction false} AddressBytes(a: nat)
    requires a < 0x1_0000_0000
    ensures Le32(a) == [a % 0x100, a / 0x100 % 0x100, a / 0x1_0000 % 0x100, a / 0x100_0000]
  {
    var lo, hi := a % 0x1_0000, a / 0x1_0000;
    assert a == 0x1_0000 * hi + lo;
    assert lo % 0x100 == a % 0x100 && lo / 0x100 == a / 0x100 % 0x100 && hi / 0x100 == a / 0x100_0000;
  }

  /** Every built header verifies, whatever its fields. */
  lemma {:induction false} BuiltVerifies(src: nat, dst: nat, protocol: byte, payload: nat, ttl: byte)
    requires src < 0x1_0000_0000 && dst < 0x1_0000_0000
    ensures Verifies(Header(src, dst, protocol, payload, ttl), 0)
  {
    hide Sum, Folded, Verifies;
    Completes(Blank(src, dst, protocol, payload, ttl), 0, CHECKSUM);
  }

  /** A change to any one word of a built header is detected, except 0x0000 for 0xFFFF and back. */
  lemma {:induction false} DetectsAnyWord(
    src: nat, dst: nat, protocol: byte, payload: nat, ttl: byte, i: nat, w: nat)
    requires src < 0x1_0000_0000 && dst < 0x1_0000_0000 && i % 2 == 0 && i < SIZE && w < 0x1_0000
    requires w != Word(Header(src, dst, protocol, payload, ttl), i)
    ensures var h := Header(src, dst, protocol, payload, ttl);
            Verifies(SetWord(h, i, w), 0) <==> (Word(h, i) == 0 && w == 0xFFFF) || (Word(h, i) == 0xFFFF && w == 0)
  {
    hide Sum, Folded, Verifies;
    var h := Header(src, dst, protocol, payload, ttl);
    BuiltVerifies(src, dst, protocol, payload, ttl);
    assert Word(h, 0) == 0x4500 && Word(h, 4) == 1;
    OtherWordLeft(h, i, if i == 0 then 4 else 0);
    DetectsOneWord(h, 0, i, w);
  }

  /** The sum is at least any two of its words. */
  lemma {:induction false} OtherWordLeft(b: seq<byte>, i: nat, j: nat)
    requires i % 2 == 0 && j % 2 == 0 && i != j && i + 1 < |b| && j + 1 < |b|
    ensures Sum(b) >= Word(b, i) + Word(b, j)
  {
    SumSetWord(b, i, 0);
    SumSetWord(SetWord(b, i, 0), j, 0);
  }

  /** `ipv4_checksum`; the result is in network order. */
  method HeaderChecksum(a: array<byte>, at: nat) returns (c: nat)
    requires at + SIZE <= a.Length
    ensures c == Htons(0xFFFF - Folded(Sum(a[at..at + SIZE])))
  {
    var sum := SumHeader(a, at, SIZE / 2);
    sum := Fold(sum);
    c := Htons(Complement(sum));
  }

  /** `ipv4_verify_checksum` */
  method VerifyChecksum(a: array<byte>, at: nat) returns (ok: bool)
    requires at + SIZE <= a.Length
    ensures ok <==> Verifies(a[at..at + SIZE], 0)
  {
    var sum := SumHeader(a, at, SIZE / 2);
    sum := Fold(sum);
    ok := sum % 0x1_0000 == 0xFFFF;
  }

  /** The stores of `ipv4_build_header` before the checksum is computed. */
  method FillFields(a: array<byte>, at: nat, src: nat, dst: nat, protocol: byte, payload: nat, ttl: byte)
    requires at + SIZE <= a.Length && src < 0x1_0000_0000 && dst < 0x1_0000_0000 && payload < 0x1_0000
    modifies a
    ensures a[..] == Splice(old(a[..]), at, Blank(src, dst, protocol, payload, ttl))
  {
    hide Splice, Le16, Le32, Wire16;
    ghost var m := a[..];
    ghost var f: seq<byte> := [0x45];
    Put8(a, at, 0x45);
    Put8(a, at + 1, 0);
    SpliceTwice(m, at, f, [0]);
    f := f + [0];
    f := StoreWord(a, at, 2, m, f, (SIZE + payload) % 0x1_0000);
    f := StoreWord(a, at, 4, m, f, 1);
    f := StoreWord(a, at, 6, m, f, 0);
    Put8(a, at + 8, ttl);
    SpliceTwice(m, at, f, [ttl]);
    f := f + [ttl];
    Put8(a, at + 9, protocol);
    SpliceTwice(m, at, f, [protocol]);
    f := f + [protocol];
    f := StoreWord(a, at, 10, m, f, 0);
    f := StoreAddress(a, at, 12, m, f, src);
    f := StoreAddress(a, at, 16, m, f, dst);
  }

  /** The next 16-bit field, swapped to network order; `f` is what was stored before it. */
  method StoreWord(a: array<byte>, at: nat, k: nat, ghost m: seq<byte>, ghost f: seq<byte>, v: nat)
    returns (ghost f': seq<byte>)
    requires |m| == a.Length && k == |f| && at + |f| + 2 <= a.Length && a[..] == Splice(m, at, f) && v < 0x1_0000
    modifies a
    ensures f' == f + Wire16(v) && a[..] == Splice(m, at, f')
  {
    SwappedIsBigEndian(v);
    SpliceTwice(m, at, f, Wire16(v));
    Put16(a, at + k, Htons(v));
    f' := f + Wire16(v);
  }

  /** The next address field. */
  method StoreAddress(a: array<byte>, at: nat, k: nat, ghost m: seq<byte>, ghost f: seq<byte>, v: nat)
    returns (ghost f': seq<byte>)
    requires |m| == a.Length && k == |f| && at + |f| + 4 <= a.Length && a[..] == Splice(m, at, f) && v < 0x1_0000_0000
    modifies a
    ensures f' == f + Le32(v) && a[..] == Splice(m, at, f')
  {
    SpliceTwice(m, at, f, Le32(v));
    Put32(a, at + k, v);
    f' := f + Le32(v);
  }

  /** `ipv4_build_header`: exactly the built header is stored, and nothing else changes. */
  method BuildHeader(a: array<byte>, at: nat, src: nat, dst: nat, protocol: byte, payload: nat, ttl: byte)
    requires at + SIZE <= a.Length && src < 0x1_0000_0000 && dst < 0x1_0000_0000 && payload < 0x1_0000
    modifies a
    ensures a[..] == Splice(old(a[..]), at, Header(src, dst, protocol, payload, ttl))
    ensures Verifies(a[at..at + SIZE], 0)
  {
    ghost var m, blank := a[..], Blank(src, dst, protocol, payload, ttl);
    FillFields(a, at, src, dst, protocol, payload, ttl);
    assert a[at..at + SIZE] == blank;
    var c := HeaderChecksum(a, at);
    ghost var w := 0xFFFF - Folded(Sum(blank));
    SwappedIsBigEndian(w);
    SpliceWord(m, at, blank, CHECKSUM, w);
    Put16(a, at + CHECKSUM, c);
    BuiltVerifies(src, dst, protocol, payload, ttl);
    assert a[at..at + SIZE] == Header(src, dst, protocol, payload, ttl);
  }
}
