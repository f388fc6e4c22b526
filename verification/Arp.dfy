/** ARP packets (RFC 826) with their Ethernet header, as `arp_build_reply` builds them. */
module Arp {
  import opened Bytes
  import opened Checksum

  const SIZE: nat := 42
  const TYPE: nat := 0x0806
  const REQUEST: nat := 1
  const REPLY: nat := 2

  /** A packet for IPv4 over Ethernet, sent to `target` by `sender`. */
  function Packet(op: nat, sender: seq<byte>, senderIp: nat, target: seq<byte>, targetIp: nat): (b: seq<byte>)
    requires op < 0x1_0000 && |sender| == 6 && |target| == 6
    requires senderIp < 0x1_0000_0000 && targetIp < 0x1_0000_0000
    ensures |b| == SIZE
  {
    target + sender + Wire16(TYPE) + Wire16(1) + Wire16(0x0800) + [6] + [4] + Wire16(op)
    + (sender + Wire32(senderIp) + target + Wire32(targetIp))
  }

  /** Where the fields of a packet are. */
  lemma {:induction false} PacketParts(op: nat, sender: seq<byte>, senderIp: nat, target: seq<byte>, targetIp: nat)
    requires op < 0x1_0000 && |sender| == 6 && |target| == 6
    requires senderIp < 0x1_0000_0000 && targetIp < 0x1_0000_0000
    ensures var f := Packet(op, sender, senderIp, target, targetIp);
            && f[0..6] == target && f[6..12] == sender
            && f[12..22] == [8, 6, 0, 1, 8, 0, 6, 4, op / 0x100, op % 0x100]
            && f[22..28] == sender && f[28..32] == Wire32(senderIp) && f[32..38] == target
            && f[38..42] == Wire32(targetIp)
  {
    hide Wire32;
    var f := Packet(op, sender, senderIp, target, targetIp);
    assert f[12] == 8 && f[13] == 6 && f[14] == 0 && f[15] == 1 && f[16] == 8 && f[17] == 0 && f[18] == 6 && f[19] == 4;
    assert f[20] == op / 0x100 && f[21] == op % 0x100;
  }

  /** A hardware address, byte by byte. */
  method PutMac(a: array<byte>, at: nat, mac: seq<byte>)
    requires at + 6 <= a.Length && |mac| == 6
    modifies a
    ensures a[..] == Splice(old(a[..]), at, mac)
  {
    ghost var m := a[..];
    for i := 0 to 6
      invariant forall k | 0 <= k < i :: a[at + k] == mac[k]
      invariant forall k | 0 <= k < a.Length && !(at <= k < at + 6) :: a[k] == m[k]
    {
      a[at + i] := mac[i];
    }
    assert a[at..at + 6] == mac;
    assert a[..] == a[..at] + mac + a[at + 6..];
  }

  /** The Ethernet header and the constant fields. */
  method PutHead(a: array<byte>, sender: seq<byte>, target: seq<byte>) returns (ghost f: seq<byte>)
    requires SIZE <= a.Length && |sender| == 6 && |target| == 6
    modifies a
    ensures f == target + sender + Wire16(TYPE) + Wire16(1) + Wire16(0x0800) + [6] + [4] + Wire16(REPLY)
    ensures |f| == 22 && a[..] == Splice(old(a[..]), 0, f)
  {
    hide Splice, Wire16;
    ghost var m := a[..];
    PutMac(a, 0, target);
    f := target;
    SpliceTwice(m, 0, f, sender);
    PutMac(a, 6, sender);
    f := f + sender;
    SpliceTwice(m, 0, f, Wire16(TYPE));
    PutWire16(a, 12, TYPE);
    f := f + Wire16(TYPE);
    SpliceTwice(m, 0, f, Wire16(1));
    PutWire16(a, 14, 1);
    f := f + Wire16(1);
    SpliceTwice(m, 0, f, Wire16(0x0800));
    PutWire16(a, 16, 0x0800);
    f := f + Wire16(0x0800);
    SpliceTwice(m, 0, f, [6]);
    Put8(a, 18, 6);
    f := f + [6];
    SpliceTwice(m, 0, f, [4]);
    Put8(a, 19, 4);
    f := f + [4];
    SpliceTwice(m, 0, f, Wire16(REPLY));
    PutWire16(a, 20, REPLY);
    f := f + Wire16(REPLY);
  }

  /** `arp_build_reply`: exactly the packet is stored. */
  method BuildReply(a: array<byte>, sender: seq<byte>, senderIp: nat, target: seq<byte>, targetIp: nat)
    requires SIZE <= a.Length && |sender| == 6 && |target| == 6
    requires senderIp < 0x1_0000_0000 && targetIp < 0x1_0000_0000
    modifies a
    ensures a[..] == Splice(old(a[..]), 0, Packet(REPLY, sender, senderIp, target, targetIp))
  {
    hide Splice, Wire16, Wire32;
    ghost var m := a[..];
    ghost var f := PutHead(a, sender, target);
    ghost var g := sender;
    SpliceTwice(m, 0, f, g);
    PutMac(a, 22, sender);
    SpliceTwice(m, 0, f + g, Wire32(senderIp));
    PutWire32(a, 28, senderIp);
    assert f + g + Wire32(senderIp) == f + (g + Wire32(senderIp));
    g := g + Wire32(senderIp);
    SpliceTwice(m, 0, f + g, target);
    PutMac(a, 32, target);
    assert f + g + target == f + (g + target);
    g := g + target;
    SpliceTwice(m, 0, f + g, Wire32(targetIp));
    PutWire32(a, 38, targetIp);
    assert f + g + Wire32(targetIp) == f + (g + Wire32(targetIp));
  }
}
