/** TCP headers without options (section 3.1 of RFC 9293): the checksum over pseudo-header and segment. */
module Tcp {
  import opened Bits
  import opened Bytes
  import opened Checksum

  const SIZE: nat := 20
  const CHECKSUM: nat := 16
  const PROTOCOL: nat := 6

  /** What the caller asks for. Addresses are as stored in host memory. */
  datatype Fields = Fields(srcPort: nat, dstPort: nat, seqNum: nat, ackNum: nat, flags: byte, window: nat) {
    predicate Ok() {
      && srcPort < 0x1_0000 && dstPort < 0x1_0000 && window < 0x1_0000
      && seqNum < 0x1_0000_0000 && ackNum < 0x1_0000_0000
    }
  }

  /** The pseudo-header. */
  function PseudoHeader(src: nat, dst: nat, length: nat): seq<byte>
    requires src < 0x1_0000_0000 && dst < 0x1_0000_0000 && length < 0x1_0000
  {
    Le32(src) + Le32(dst) + [0, PROTOCOL] + Wire16(length)
  }

  /** The sum the code starts from. */
  function PseudoSum(src: nat, dst: nat, length: nat): (s: nat)
    requires src < 0x1_0000_0000 && dst < 0x1_0000_0000 && length < 0x1_0000
    ensures s <= 5 * 0xFFFF + PROTOCOL
  {
    Htons(src % 0x1_0000) + Htons(src / 0x1_0000) + Htons(dst % 0x1_0000) + Htons(dst / 0x1_0000) + PROTOCOL + length
  }

  lemma {:induction false} SumAppend(a: seq<byte>, b: seq<byte>)
    requires |a| % 2 == 0
    ensures Sum(a + b) == Sum(a) + Sum(b)
    decreases |a|
  {
    if a == [] {
      assert a + b == b;
    } else {
      assert (a + b)[2..] == a[2..] + b;
      SumAppend(a[2..], b);
    }
  }

  lemma {:induction false} SumOne(b: seq<byte>)
    requires |b| == 2
    ensures Sum(b) == Word(b, 0)
  {
    assert b[2..] == [];
  }

  lemma {:induction false} SumAddress(x: nat)
    requires x < 0x1_0000_0000
    ensures Sum(Le32(x)) == Htons(x % 0x1_0000) + Htons(x / 0x1_0000)
  {
    SumAppend(Le16(x % 0x1_0000), Le16(x / 0x1_0000));
    SumOne(Le16(x % 0x1_0000));
    SumOne(Le16(x / 0x1_0000));
  }

  /** The code's starting sum is the sum of the pseudo-header. */
  lemma {:induction false} PseudoSums(src: nat, dst: nat, length: nat)
    requires src < 0x1_0000_0000 && dst < 0x1_0000_0000 && length < 0x1_0000
    ensures Sum(PseudoHeader(src, dst, length)) == PseudoSum(src, dst, length)
  {
    hide Htons, Sum, Le32;
    SumAppend(Le32(src) + Le32(dst) + [0, PROTOCOL], Wire16(length));
    SumAppend(Le32(src) + Le32(dst), [0, PROTOCOL]);
    SumAppend(Le32(src), Le32(dst));
    SumAddress(src);
    SumAddress(dst);
    SumOne([0, PROTOCOL]);
    SumOne(Wire16(length));
  }

  /** The header built for these fields, its checksum zero. */
  function Blank(f: Fields): (b: seq<byte>)
    requires f.Ok()
    ensures |b| == SIZE
  {
    Wire16(f.srcPort) + Wire16(f.dstPort) + Wire32(f.seqNum) + Wire32(f.ackNum) + [5 * 16] + [f.flags] + Wire16(f.window)
    + Le16(0) + Le16(0)
  }

  /** The checksum of a segment whose checksum field is zero. */
  function ChecksumOf(src: nat, dst: nat, segment: seq<byte>): (c: nat)
    requires src < 0x1_0000_0000 && dst < 0x1_0000_0000 && |segment| < 0x1_0000
    ensures c < 0x1_0000
  {
    0xFFFF - Folded(Sum(PseudoHeader(src, dst, |segment|) + segment))
  }

  /** The length the code computes: 16 bits. */
  function SegmentLength(payload: nat): nat {
    (SIZE + payload) % 0x1_0000
  }

  /** The header with its checksum over the first `SegmentLength` bytes of header and payload. */
  function Header(f: Fields, src: nat, dst: nat, payload: seq<byte>): (b: seq<byte>)
    requires f.Ok() && src < 0x1_0000_0000 && dst < 0x1_0000_0000
    ensures |b| == SIZE
  {
    SetWord(Blank(f), CHECKSUM, ChecksumOf(src, dst, (Blank(f) + payload)[..SegmentLength(|payload|)]))
  }

  /** Where every field of a built header is, byte by byte. */
  lemma {:induction false} HeaderFields(f: Fields, src: nat, dst: nat, payload: seq<byte>)
    requires f.Ok() && src < 0x1_0000_0000 && dst < 0x1_0000_0000
    ensures var h := Header(f, src, dst, payload);
            && 0x100 * (h[0] as int) + h[1] == f.srcPort && 0x100 * (h[2] as int) + h[3] == f.dstPort
            && 0x100_0000 * (h[4] as int) + 0x1_0000 * (h[5] as int) + 0x100 * (h[6] as int) + h[7] == f.seqNum
            && 0x100_0000 * (h[8] as int) + 0x1_0000 * (h[9] as int) + 0x100 * (h[10] as int) + h[11] == f.ackNum
            && h[12] == 0x50 && h[13] == f.flags && 0x100 * (h[14] as int) + h[15] == f.window
            && h[18] == 0 && h[19] == 0
  {
    hide ChecksumOf;
    var h := Header(f, src, dst, payload);
    assert h[4..8] == Wire32(f.seqNum) && h[8..12] == Wire32(f.ackNum);
    NumberBytes(f.seqNum, h[4..8]);
    NumberBytes(f.ackNum, h[8..12]);
  }

  lemma {:induction false} NumberBytes(n: nat, b: seq<byte>)
    requires n < 0x1_0000_0000 && b == Wire32(n)
    ensures 0x100_0000 * (b[0] as int) + 0x1_0000 * (b[1] as int) + 0x100 * (b[2] as int) + b[3] == n
  {
    var hi, lo := n / 0x1_0000, n % 0x1_0000;
    assert b == [hi / 0x100, hi % 0x100, lo / 0x100, lo % 0x100];
  }

  /** The pseudo-header (section 3.1 of RFC 9293): addresses, zero, protocol 6, length. */
  lemma {:induction false} PseudoFields(src: nat, dst: nat, length: nat)
    requires src < 0x1_0000_0000 && dst < 0x1_0000_0000 && length < 0x1_0000
    ensures var p := PseudoHeader(src, dst, length);
            && |p| == 12 && p[0] == src % 0x100 && p[3] == src / 0x100_0000 && p[4] == dst % 0x100
            && p[7] == dst / 0x100_0000 && p[8] == 0 && p[9] == 6 && 0x100 * (p[10] as int) + p[11] == length
  {}

  /** A built segment of any length IPv4 can carry, odd or even, verifies at the receiver. */
  lemma {:induction false} BuiltVerifies(f: Fields, src: nat, dst: nat, payload: seq<byte>)
    requires f.Ok() && src < 0x1_0000_0000 && dst < 0x1_0000_0000 && SIZE + |payload| < 0x1_0000
    ensures var segment := Header(f, src, dst, payload) + payload;
            Verifies(PseudoHeader(src, dst, |segment|) + segment, 0)
  {
    hide Sum, Folded, Verifies, PseudoHeader;
    var blank := Blank(f) + payload;
    var p := PseudoHeader(src, dst, |blank|);
    assert |p| == 12 by { PseudoSize(src, dst, |blank|); }
    assert blank[..|blank|] == blank;
    assert Word(p + blank, 12 + CHECKSUM) == 0;
    Completes(p + blank, 0, 12 + CHECKSUM);
    var c := ChecksumOf(src, dst, blank);
    assert SetWord(p + blank, 12 + CHECKSUM, c) == p + (SetWord(Blank(f), CHECKSUM, c) + payload);
  }

  lemma PseudoSize(src: nat, dst: nat, length: nat)
    requires src < 0x1_0000_0000 && dst < 0x1_0000_0000 && length < 0x1_0000
    ensures |PseudoHeader(src, dst, length)| == 12
  {}

  /** `tcp_checksum`: byte-wise words, an odd last byte, folding; no 32-bit overflow. */
  method SegmentChecksum(src: nat, dst: nat, a: array<byte>, at: nat, length: nat) returns (c: nat)
    requires src < 0x1_0000_0000 && dst < 0x1_0000_0000 && length < 0x1_0000 && at + length <= a.Length
    ensures c == Htons(ChecksumOf(src, dst, a[at..at + length]))
  {
    hide Or, PseudoSum, PseudoHeader, Folded, Htons;
    ghost var b := a[at..at + length];
    var sum := PseudoSum(src, dst, length);
    ghost var start := sum;
    var remaining, offset := length, 0;
    while remaining > 1
      invariant 0 <= remaining && offset + remaining == length && offset % 2 == 0
      invariant sum <= start + 0xFFFF * (offset / 2) && sum + Sum(b[offset..]) == start + Sum(b)
    {
      assert b[offset..][2..] == b[offset + 2..];
      OrBytes(a[at + offset], a[at + offset + 1]);
      var word := Or(a[at + offset] as nat * 0x100, a[at + offset + 1]);
      sum := sum + word;
      offset := offset + 2;
      remaining := remaining - 2;
    }
    LastByte(b, offset);
    if remaining == 1 {
      sum := sum + a[at + length - 1] as nat * 0x100;
    }
    assert sum == start + Sum(b) < 0x1_0000_0000;
    PseudoSums(src, dst, length);
    PseudoSize(src, dst, length);
    SumAppend(PseudoHeader(src, dst, length), b);
    sum := Fold(sum);
    c := Htons(Complement(sum));
  }

  lemma LastByte(b: seq<byte>, offset: nat)
    requires offset == |b| || offset == |b| - 1
    ensures Sum(b[offset..]) == if offset == |b| then 0 else b[|b| - 1] as nat * 0x100
  {}

  lemma {:induction false} OrBytes(hi: byte, lo: byte)
    ensures Or(hi as nat * 0x100, lo) == hi as nat * 0x100 + lo
  {
    PowersOfTwo();
    OrDisjoint(hi, 8, lo);
  }

  /** The stores of `tcp_build_header` before the checksum is computed. */
  method FillFields(a: array<byte>, at: nat, f: Fields)
    requires at + SIZE <= a.Length && f.Ok()
    modifies a
    ensures a[..] == Splice(old(a[..]), at, Blank(f))
  {
    hide Splice, Le16, Wire32, Wire16;
    ghost var m := a[..];
    ghost var g := Wire16(f.srcPort);
    PutWire16(a, at, f.srcPort);
    SpliceTwice(m, at, g, Wire16(f.dstPort));
    g := g + Wire16(f.dstPort);
    PutWire16(a, at + 2, f.dstPort);
    SpliceTwice(m, at, g, Wire32(f.seqNum));
    g := g + Wire32(f.seqNum);
    PutWire32(a, at + 4, f.seqNum);
    SpliceTwice(m, at, g, Wire32(f.ackNum));
    g := g + Wire32(f.ackNum);
    PutWire32(a, at + 8, f.ackNum);
    SpliceTwice(m, at, g, [5 * 16]);
    g := g + [5 * 16];
    Put8(a, at + 12, 5 * 16);
    SpliceTwice(m, at, g, [f.flags]);
    g := g + [f.flags];
    Put8(a, at + 13, f.flags);
    SpliceTwice(m, at, g, Wire16(f.window));
    g := g + Wire16(f.window);
    PutWire16(a, at + 14, f.window);
    SpliceTwice(m, at, g, Le16(0));
    g := g + Le16(0);
    Put16(a, at + 16, 0);
    SpliceTwice(m, at, g, Le16(0));
    Put16(a, at + 18, 0);
  }

  /** `tcp_build_header`, the payload already in place: exactly the built header is stored. */
  method BuildHeader(a: array<byte>, at: nat, f: Fields, src: nat, dst: nat, payload: nat)
    requires at + SIZE + payload <= a.Length && f.Ok() && payload < 0x1_0000
    requires src < 0x1_0000_0000 && dst < 0x1_0000_0000
    modifies a
    ensures var data := old(a[at + SIZE..at + SIZE + payload]);
            a[..] == Splice(old(a[..]), at, Header(f, src, dst, data))
    ensures var segment := a[at..at + SIZE + payload];
            SIZE + payload < 0x1_0000 ==> Verifies(PseudoHeader(src, dst, |segment|) + segment, 0)
  {
    hide Sum, Folded, Verifies, PseudoHeader, SetWord, ChecksumOf, Blank, Splice;
    ghost var m, data, blank := a[..], a[at + SIZE..at + SIZE + payload], Blank(f);
    FillFields(a, at, f);
    var length := SegmentLength(payload);
    AfterSplice(m, at, blank, payload);
    Prefix(a[..], at, SIZE + payload, length);
    assert a[at..at + length] == (blank + data)[..length];
    var c := SegmentChecksum(src, dst, a, at, length);
    ghost var w := ChecksumOf(src, dst, (blank + data)[..length]);
    SwappedIsBigEndian(w);
    SpliceWord(m, at, blank, CHECKSUM, w);
    Put16(a, at + CHECKSUM, c);
    if SIZE + payload < 0x1_0000 {
      BuiltVerifies(f, src, dst, data);
      AfterSplice(m, at, Header(f, src, dst, data), payload);
      assert a[at..at + SIZE + payload] == a[..][at..at + SIZE + payload];
    }
  }

  lemma {:induction false} Prefix(m: seq<byte>, at: nat, n: nat, length: nat)
    requires length <= n && at + n <= |m|
    ensures m[at..at + length] == m[at..at + n][..length]
  {}

  /** A spliced header and what follows it. */
  lemma {:induction false} AfterSplice(m: seq<byte>, at: nat, h: seq<byte>, n: nat)
    requires at + |h| + n <= |m|
    ensures Splice(m, at, h)[at..at + |h| + n] == h + m[at + |h|..at + |h| + n]
  {}
}
