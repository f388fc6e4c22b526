/** ICMP echo headers (RFC 792), sent without data. */
module Icmp {
  import opened Bytes
  import opened Checksum

  const SIZE: nat := 8
  const CHECKSUM: nat := 2
  const ECHO_REPLY: byte := 0
  const ECHO_REQUEST: byte := 8

  function Blank(kind: byte, id: nat, sequence: nat): (b: seq<byte>)
    requires id < 0x1_0000 && sequence < 0x1_0000
    ensures |b| == SIZE
  {
    [kind] + [0] + Le16(0) + Wire16(id) + Wire16(sequence)
  }

  function Header(kind: byte, id: nat, sequence: nat): (b: seq<byte>)
    requires id < 0x1_0000 && sequence < 0x1_0000
    ensures |b| == SIZE
  {
    SetWord(Blank(kind, id, sequence), CHECKSUM, 0xFFFF - Folded(Sum(Blank(kind, id, sequence))))
  }

  /** Where every field of a built header is, byte by byte. */
  lemma {:induction false} HeaderFields(kind: byte, id: nat, sequence: nat)
    requires id < 0x1_0000 && sequence < 0x1_0000
    ensures var h := Header(kind, id, sequence);
            && h[0] == kind && h[1] == 0 && 0x100 * (h[4] as int) + h[5] == id
            && 0x100 * (h[6] as int) + h[7] == sequence
  {
    hide Sum, Folded;
  }

  /** Every built echo header verifies. */
  lemma {:induction false} BuiltVerifies(kind: byte, id: nat, sequence: nat)
    requires id < 0x1_0000 && sequence < 0x1_0000
    ensures Verifies(Header(kind, id, sequence), 0)
  {
    hide Sum, Folded, Verifies;
    Completes(Blank(kind, id, sequence), 0, CHECKSUM);
  }

  /** `icmp_checksum`; too short a length gives 0. */
  method HeaderChecksum(a: array<byte>, at: nat, length: nat) returns (c: nat)
    requires at + SIZE <= a.Length
    ensures c == if length < SIZE then 0 else Htons(0xFFFF - Folded(Sum(a[at..at + SIZE])))
  {
    if length < SIZE { return 0; }
    var sum := SumHeader(a, at, SIZE / 2);
    sum := Fold(sum);
    c := Htons(Complement(sum));
  }

  method FillFields(a: array<byte>, at: nat, kind: byte, id: nat, sequence: nat)
    requires at + SIZE <= a.Length && id < 0x1_0000 && sequence < 0x1_0000
    modifies a
    ensures a[..] == Splice(old(a[..]), at, Blank(kind, id, sequence))
  {
    hide Splice, Le16, Wire16;
    ghost var m, f := a[..], [kind];
    Put8(a, at, kind);
    SpliceTwice(m, at, f, [0]);
    f := f + [0];
    Put8(a, at + 1, 0);
    SpliceTwice(m, at, f, Le16(0));
    f := f + Le16(0);
    Put16(a, at + 2, 0);
    SpliceTwice(m, at, f, Wire16(id));
    f := f + Wire16(id);
    SwappedIsBigEndian(id);
    Put16(a, at + 4, Htons(id));
    SpliceTwice(m, at, f, Wire16(sequence));
    SwappedIsBigEndian(sequence);
    Put16(a, at + 6, Htons(sequence));
  }

  /** `icmp_build_request` and `icmp_build_response`: exactly the built header is stored. */
  method BuildHeader(a: array<byte>, at: nat, kind: byte, id: nat, sequence: nat)
    requires at + SIZE <= a.Length && id < 0x1_0000 && sequence < 0x1_0000
    modifies a
    ensures a[..] == Splice(old(a[..]), at, Header(kind, id, sequence))
    ensures Verifies(a[at..at + SIZE], 0)
  {
    ghost var m, blank := a[..], Blank(kind, id, sequence);
    FillFields(a, at, kind, id, sequence);
    assert a[at..at + SIZE] == blank;
    var c := HeaderChecksum(a, at, SIZE);
    ghost var w := 0xFFFF - Folded(Sum(blank));
    SwappedIsBigEndian(w);
    SpliceWord(m, at, blank, CHECKSUM, w);
    Put16(a, at + CHECKSUM, c);
    BuiltVerifies(kind, id, sequence);
    assert a[at..at + SIZE] == Header(kind, id, sequence);
  }

  method BuildRequest(a: array<byte>, at: nat, id: nat, sequence: nat)
    requires at + SIZE <= a.Length && id < 0x1_0000 && sequence < 0x1_0000
    modifies a
    ensures a[..] == Splice(old(a[..]), at, Header(8, id, sequence))
    ensures Verifies(a[at..at + SIZE], 0)
  {
    BuildHeader(a, at, ECHO_REQUEST, id, sequence);
  }

  method BuildResponse(a: array<byte>, at: nat, id: nat, sequence: nat)
    requires at + SIZE <= a.Length && id < 0x1_0000 && sequence < 0x1_0000
    modifies a
    ensures a[..] == Splice(old(a[..]), at, Header(0, id, sequence))
    ensures Verifies(a[at..at + SIZE], 0)
  {
    BuildHeader(a, at, ECHO_REPLY, id, sequence);
  }
}
