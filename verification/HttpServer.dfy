/** The packet loop of the HTTP server: from a received frame to the frames sent. */
module HttpServer {
  import opened Bytes
  import opened Checksum
  import Arp
  import Ipv4
  import Tcp
  import Http
  import opened TcpServer

  const BUFFER: nat := 2048
  const ETHERNET: nat := 14
  /** The three headers of a reply. */
  const HEADERS: nat := 54
  const PORT: nat := 80

  /** A 32-bit field as the host loads it. */
  function Load32(b: seq<byte>, i: nat): (v: nat)
    requires i + 3 < |b|
    ensures v < 0x1_0000_0000
  {
    LoadLe16(b[i], b[i + 1]) + 0x1_0000 * LoadLe16(b[i + 2], b[i + 3])
  }

  /** The frames the server looks into: long enough, IPv4, TCP, port 80. */
  predicate Accepted(b: seq<byte>) {
    |b| >= HEADERS && Word(b, 12) == 0x0800 && b[23] == Tcp.PROTOCOL && Word(b, 36) == PORT
  }

  lemma {:induction false} AcceptedIff(b: seq<byte>)
    ensures Accepted(b) <==> |b| >= 54 && b[12..14] == [8, 0] && b[23] == 6 && b[36..38] == [0, 80]
  {
    if |b| >= 54 {
      assert b[12..14] == [b[12], b[13]] && b[36..38] == [b[36], b[37]];
    }
  }

  /** `ip_total_len - sizeof(ipv4_hdr_t) - data_offset` in 16 bits. */
  function PayloadLength(totalLength: nat, dataOffset: nat): nat
    requires dataOffset <= 60
  {
    (totalLength + 0x1_0000 - Ipv4.SIZE - dataOffset) % 0x1_0000
  }

  /** What is left of an IPv4 packet behind its header of `ihl` words and the TCP header is the payload length exactly
      when the packet has no IP options and its length covers both headers. */
  lemma {:induction false} PayloadLengthIff(totalLength: nat, ihl: nat, dataOffset: nat)
    requires totalLength < 0x1_0000 && ihl < 16 && dataOffset <= 60
    ensures PayloadLength(totalLength, dataOffset) == totalLength - 4 * ihl - dataOffset
            <==> ihl == 5 && totalLength >= Ipv4.SIZE + dataOffset
  {}

  /** The segment in an accepted frame. */
  function Parse(b: seq<byte>): (s: Segment)
    requires Accepted(b)
    ensures s.Ok()
  {
    Segment(Peer(Word32(b, 26), Word(b, 34)), Word32(b, 38), Word32(b, 42), b[47] / 2 % 2 == 1, b[47] % 2 == 1,
            PayloadLength(Word(b, 16), b[46] / 16 * 4))
  }

  function Flags(kind: Kind): byte {
    match kind
    case SynAck => 0x12
    case Data => 0x18
    case FinAck => 0x10
  }

  /** The Ethernet header: destination, source, type. */
  function Ethernet(to: seq<byte>, from: seq<byte>): (b: seq<byte>)
    requires |to| == 6 && |from| == 6
    ensures |b| == ETHERNET
  {
    to + from + Wire16(0x0800)
  }

  function FieldsOf(dstPort: nat, r: Reply): Tcp.Fields {
    Tcp.Fields(PORT, dstPort, r.seqNum, r.ackNum, Flags(r.kind), 65535)
  }

  predicate Sendable(r: Reply) {
    r.seqNum < MOD && r.ackNum < MOD && |r.payload| <= BUFFER - HEADERS
  }

  /** The frame that answers frame `b` with reply `r`. */
  function FrameOf(mac: seq<byte>, b: seq<byte>, r: Reply): seq<byte>
    requires |mac| == 6 && Accepted(b) && Sendable(r)
  {
    var src, dst := Load32(b, 30), Load32(b, 26);
    Ethernet(b[6..12], mac) + Ipv4.Header(src, dst, Tcp.PROTOCOL, Tcp.SIZE + |r.payload|, 64)
    + (Tcp.Header(FieldsOf(Word(b, 34), r), src, dst, r.payload) + r.payload)
  }

  /** The frames sent are those of the replies, in order. */
  ghost predicate Answered(mac: seq<byte>, b: seq<byte>, rs: seq<Reply>, sent: seq<seq<byte>>)
    requires |mac| == 6 && Accepted(b)
  {
    && |sent| == |rs|
    && forall i | 0 <= i < |rs| :: Sendable(rs[i]) && sent[i] == FrameOf(mac, b, rs[i])
  }

  /** The frames sent are the replies of the connectionless server to the segment in `b`, whose counter went from
      `isn` to `isn'`. */
  ghost predicate Served(mac: seq<byte>, b: seq<byte>, isn: nat, isn': nat, sent: seq<seq<byte>>)
    requires |mac| == 6 && Accepted(b)
  {
    Answered(mac, b, Stateless(isn, Parse(b)), sent) && isn' == NextIsn(isn, Parse(b))
  }

  /** The counter moves with each SYN. */
  lemma {:induction false} ServedCounts(mac: seq<byte>, b: seq<byte>, isn: nat, isn': nat, sent: seq<seq<byte>>)
    requires |mac| == 6 && Accepted(b) && isn < MOD && Served(mac, b, isn, isn', sent)
    ensures isn' == if b[47] / 2 % 2 == 1 then (isn + 1) % 0x1_0000_0000 else isn
  {
    hide Answered, Stateless;
  }

  /** Both checksums of every reply frame verify. */
  lemma {:induction false} ReplyFrameVerifies(mac: seq<byte>, b: seq<byte>, r: Reply)
    requires |mac| == 6 && Accepted(b) && Sendable(r)
    ensures var f := FrameOf(mac, b, r);
            && |f| == HEADERS + |r.payload|
            && Verifies(f[14..34], 0)
            && Verifies(Tcp.PseudoHeader(Load32(b, 30), Load32(b, 26), |f| - 34) + f[34..], 0)
  {
    hide Verifies, Load32, Tcp.PseudoHeader;
    var f, src, dst := FrameOf(mac, b, r), Load32(b, 30), Load32(b, 26);
    var ip := Ipv4.Header(src, dst, Tcp.PROTOCOL, Tcp.SIZE + |r.payload|, 64);
    var segment := Tcp.Header(FieldsOf(Word(b, 34), r), src, dst, r.payload) + r.payload;
    Ipv4.BuiltVerifies(src, dst, Tcp.PROTOCOL, Tcp.SIZE + |r.payload|, 64);
    Tcp.BuiltVerifies(FieldsOf(Word(b, 34), r), src, dst, r.payload);
    Sections(Ethernet(b[6..12], mac), ip, segment);
  }

  lemma {:induction false} LoadedBytes(b: seq<byte>, i: nat)
    requires i + 3 < |b|
    ensures Le32(Load32(b, i)) == b[i..i + 4]
  {
    var lo, hi := LoadLe16(b[i], b[i + 1]), LoadLe16(b[i + 2], b[i + 3]);
    assert Load32(b, i) % 0x1_0000 == lo && Load32(b, i) / 0x1_0000 == hi;
    assert lo % 0x100 == b[i] && lo / 0x100 == b[i + 1] && hi % 0x100 == b[i + 2] && hi / 0x100 == b[i + 3];
  }

  /** The parts of a segment's header that the checksum leaves as they were filled in. */
  lemma {:induction false} TcpParts(f: Tcp.Fields, src: nat, dst: nat, payload: seq<byte>)
    requires f.Ok() && src < 0x1_0000_0000 && dst < 0x1_0000_0000
    ensures var h := Tcp.Header(f, src, dst, payload);
            && h[0..2] == Wire16(f.srcPort) && h[2..4] == Wire16(f.dstPort) && h[4..8] == Wire32(f.seqNum)
            && h[8..12] == Wire32(f.ackNum) && h[12] == 0x50 && h[13] == f.flags && h[14..16] == Wire16(f.window)
            && h[18..20] == [0, 0]
  {}

  lemma {:induction false} Ipv4Parts(src: nat, dst: nat, protocol: byte, payload: nat, ttl: byte)
    requires src < 0x1_0000_0000 && dst < 0x1_0000_0000
    ensures var h := Ipv4.Header(src, dst, protocol, payload, ttl);
            && h[0..2] == [0x45, 0] && h[2..4] == Wire16((20 + payload) % 0x1_0000) && h[4..8] == [0, 1, 0, 0]
            && h[8] == ttl && h[9] == protocol && h[12..16] == Le32(src) && h[16..20] == Le32(dst)
  {}

  /** What the client reads in a reply frame: the request's addresses and ports exchanged, the reply's numbers,
      its length, its flags and its payload. */
  lemma {:induction false} ReplyReads(mac: seq<byte>, b: seq<byte>, r: Reply)
    requires |mac| == 6 && Accepted(b) && Sendable(r)
    ensures var f := FrameOf(mac, b, r);
            && |f| == HEADERS + |r.payload| && f[0..6] == b[6..12] && f[6..12] == mac && Word(f, 12) == 0x0800
            && Word(f, 16) == |f| - ETHERNET && f[23] == 6 && f[26..30] == b[30..34] && f[30..34] == b[26..30]
            && Word(f, 34) == PORT && Word(f, 36) == Word(b, 34)
            && Word32(f, 38) == r.seqNum && Word32(f, 42) == r.ackNum && f[54..] == r.payload
            && f[14..16] == [0x45, 0] && f[18..22] == [0, 1, 0, 0] && f[22] == 64 && f[46] == 0x50
            && f[47] == (match r.kind { case SynAck => 0x12 case Data => 0x18 case FinAck => 0x10 })
            && Word(f, 48) == 65535 && f[52..54] == [0, 0]
  {
    hide Load32, Ipv4.Header, Tcp.Header, Le32, Wire16, Wire32, Word, Word32;
    var src, dst, fields := Load32(b, 30), Load32(b, 26), FieldsOf(Word(b, 34), r);
    var ip := Ipv4.Header(src, dst, Tcp.PROTOCOL, Tcp.SIZE + |r.payload|, 64);
    var tcp := Tcp.Header(fields, src, dst, r.payload);
    var f, eth := FrameOf(mac, b, r), Ethernet(b[6..12], mac);
    LoadedBytes(b, 30);
    LoadedBytes(b, 26);
    Ipv4Parts(src, dst, Tcp.PROTOCOL, Tcp.SIZE + |r.payload|, 64);
    TcpParts(fields, src, dst, r.payload);
    InSections(eth, ip, tcp, r.payload);
    ReadsBack16(f, 12, 0x0800);
    ReadsBack16(f, 16, 20 + Tcp.SIZE + |r.payload|);
    ReadsBack16(f, 34, PORT);
    ReadsBack16(f, 36, Word(b, 34));
    ReadsBack32(f, 38, r.seqNum);
    ReadsBack32(f, 42, r.ackNum);
    ReadsBack16(f, 48, 65535);
  }

  /** The number a client's address is, read in network order. */
  function InNetworkOrder(a: nat): nat {
    0x100_0000 * (a % 0x100) + 0x1_0000 * (a / 0x100 % 0x100) + 0x100 * (a / 0x1_0000 % 0x100) + a / 0x100_0000
  }

  lemma {:induction false} AddressReads(b: seq<byte>, i: nat, a: nat)
    requires a < 0x1_0000_0000 && i + 3 < |b| && b[i..i + 4] == Le32(a)
    ensures Word32(b, i) == InNetworkOrder(a)
  {
    Ipv4.AddressBytes(a);
    assert b[i] == b[i..i + 4][0] && b[i + 1] == b[i..i + 4][1];
    assert b[i + 2] == b[i..i + 4][2] && b[i + 3] == b[i..i + 4][3];
  }

  /** A frame that carries a segment without options. */
  function Carrying(to: seq<byte>, from: seq<byte>, src: nat, dst: nat, protocol: byte, ttl: byte, f: Tcp.Fields,
                    payload: seq<byte>): seq<byte>
    requires |to| == 6 && |from| == 6 && src < 0x1_0000_0000 && dst < 0x1_0000_0000 && f.Ok()
  {
    Ethernet(to, from) + Ipv4.Header(src, dst, protocol, 20 + |payload|, ttl)
    + (Tcp.Header(f, src, dst, payload) + payload)
  }

  /** Such a frame is looked into exactly when it is a TCP segment for port 80, and what is read from it is what was
      put into it. */
  lemma {:induction false} ParseReads(to: seq<byte>, from: seq<byte>, src: nat, dst: nat, protocol: byte, ttl: byte,
                                      f: Tcp.Fields, payload: seq<byte>)
    requires |to| == 6 && |from| == 6 && src < 0x1_0000_0000 && dst < 0x1_0000_0000 && f.Ok()
    requires 40 + |payload| < 0x1_0000
    ensures var b := Carrying(to, from, src, dst, protocol, ttl, f, payload);
            && (Accepted(b) <==> protocol == 6 && f.dstPort == 80)
            && (Accepted(b) ==>
                  Parse(b) == Segment(Peer(InNetworkOrder(src), f.srcPort), f.seqNum, f.ackNum,
                                      f.flags / 2 % 2 == 1, f.flags % 2 == 1, |payload|))
  {
    hide Ipv4.Header, Tcp.Header, Le32, Wire16, Wire32, Word, Word32, InNetworkOrder, Ethernet;
    var eth := Ethernet(to, from);
    var ip, tcp := Ipv4.Header(src, dst, protocol, 20 + |payload|, ttl), Tcp.Header(f, src, dst, payload);
    var b := eth + ip + (tcp + payload);
    EthernetType(to, from);
    Ipv4Parts(src, dst, protocol, 20 + |payload|, ttl);
    TcpParts(f, src, dst, payload);
    InSections(eth, ip, tcp, payload);
    ReadsBack16(b, 12, 0x0800);
    ReadsBack16(b, 16, 40 + |payload|);
    AddressReads(b, 26, src);
    ReadsBack16(b, 34, f.srcPort);
    ReadsBack16(b, 36, f.dstPort);
    ReadsBack32(b, 38, f.seqNum);
    ReadsBack32(b, 42, f.ackNum);
  }

  lemma EthernetType(to: seq<byte>, from: seq<byte>)
    requires |to| == 6 && |from| == 6
    ensures Ethernet(to, from)[12..14] == Wire16(0x0800) == [8, 0]
    ensures Ethernet(to, from)[0..6] == to && Ethernet(to, from)[6..12] == from
  {}

  /** Where the sections of a frame are. */
  lemma {:induction false} InSections(eth: seq<byte>, ip: seq<byte>, tcp: seq<byte>, payload: seq<byte>)
    requires |eth| == 14 && |ip| == 20 && |tcp| == 20
    ensures var f := eth + ip + (tcp + payload);
            && f[0..6] == eth[0..6] && f[6..12] == eth[6..12] && f[12..14] == eth[12..14]
            && f[14..16] == ip[0..2] && f[16..18] == ip[2..4] && f[18..22] == ip[4..8] && f[22] == ip[8]
            && f[23] == ip[9] && f[26..30] == ip[12..16] && f[30..34] == ip[16..20]
            && f[34..36] == tcp[0..2] && f[36..38] == tcp[2..4] && f[38..42] == tcp[4..8] && f[42..46] == tcp[8..12]
            && f[46] == tcp[12] && f[47] == tcp[13] && f[48..50] == tcp[14..16] && f[52..54] == tcp[18..20]
            && f[54..] == payload
  {}

  lemma Sections(eth: seq<byte>, ip: seq<byte>, segment: seq<byte>)
    requires |eth| == 14 && |ip| == 20
    ensures (eth + ip + segment)[14..34] == ip && (eth + ip + segment)[34..] == segment
  {}

  /** Storing a stretch behind one that is stored later. */
  lemma {:induction false} SpliceBefore(m: seq<byte>, a: nat, f: seq<byte>, g: seq<byte>)
    requires a + |f| + |g| <= |m|
    ensures Splice(Splice(m, a + |f|, g), a, f) == Splice(m, a, f + g)
  {}

  // ---------------------------------------------------------------- ARP

  /** `n` bytes were received into `rx`: the type and the opcode are tested, the length of the packet is not. */
  predicate IsArpRequest(rx: seq<byte>, n: nat)
    requires |rx| == BUFFER
  {
    n >= 14 && rx[12..14] == [8, 6] && rx[20..22] == [0, 1]
  }

  /** The answer: the address asked for is at `mac`. */
  function ArpAnswer(mac: seq<byte>, rx: seq<byte>): (f: seq<byte>)
    requires |mac| == 6 && |rx| == BUFFER
    ensures |f| == Arp.SIZE
  {
    Arp.Packet(Arp.REPLY, mac, Word32(rx, 38), rx[22..28], Word32(rx, 28))
  }

  /** What the requester reads in the answer: it is sent to the requester, says that the address asked for is at
      `mac`, and repeats the requester's own addresses. */
  lemma {:induction false} ArpAnswerReads(mac: seq<byte>, rx: seq<byte>)
    requires |mac| == 6 && |rx| == BUFFER
    ensures var f := ArpAnswer(mac, rx);
            && f[0..6] == rx[22..28] && f[6..12] == mac && f[12..22] == [8, 6, 0, 1, 8, 0, 6, 4, 0, 2]
            && f[22..28] == mac && f[28..32] == rx[38..42] && f[32..38] == rx[22..28] && f[38..42] == rx[28..32]
  {
    hide Arp.Packet, Word, Word32, Wire32;
    var f := ArpAnswer(mac, rx);
    Arp.PacketParts(Arp.REPLY, mac, Word32(rx, 38), rx[22..28], Word32(rx, 28));
    WordBytes(rx, 38);
    WordBytes(rx, 28);
  }

  /** The answer is a function of the `n` bytes received. */
  ghost predicate AnsweredFromFrame(mac: seq<byte>, n: nat)
    requires |mac| == 6 && n <= BUFFER
  {
    forall rx: seq<byte>, rx': seq<byte> |
      |rx| == |rx'| == BUFFER && rx[..n] == rx'[..n] && IsArpRequest(rx, n) && IsArpRequest(rx', n) ::
      ArpAnswer(mac, rx) == ArpAnswer(mac, rx')
  }

  /** The length is not tested, so the answer is one to the frame received exactly when that is a whole packet;
      below, it also tells what an earlier frame left in the buffer. */
  lemma {:induction false} ArpFromFrameIffWhole(mac: seq<byte>, n: nat)
    requires |mac| == 6 && ETHERNET <= n <= BUFFER
    ensures AnsweredFromFrame(mac, n) <==> n >= Arp.SIZE
  {
    if n >= Arp.SIZE {
      forall rx: seq<byte>, rx': seq<byte> | |rx| == |rx'| == BUFFER && rx[..n] == rx'[..n]
        ensures ArpAnswer(mac, rx) == ArpAnswer(mac, rx')
      {
        SamePrefix(rx, rx', n);
      }
    } else {
      var zeros: seq<byte> := seq(BUFFER, _ => 0);
      var rx := zeros[12 := 0x08][13 := 0x06][21 := 1];
      var rx' := rx[41 := 1];
      assert IsArpRequest(rx, n) && IsArpRequest(rx', n) && rx[..n] == rx'[..n];
      ArpAnswerReads(mac, rx);
      ArpAnswerReads(mac, rx');
      assert rx[38..42][3] == 0 && rx'[38..42][3] == 1;
    }
  }

  lemma {:induction false} SamePrefix(rx: seq<byte>, rx': seq<byte>, n: nat)
    requires |rx| == |rx'| == BUFFER && Arp.SIZE <= n <= BUFFER && rx[..n] == rx'[..n]
    ensures Word32(rx, 38) == Word32(rx', 38) && Word32(rx, 28) == Word32(rx', 28) && rx[22..28] == rx'[22..28]
  {
    assert forall k | 0 <= k < n :: rx[k] == rx[..n][k] && rx'[k] == rx'[..n][k];
  }

  class Server {
    const mac: seq<byte>
    var isnCounter: nat

    predicate Valid()
      reads this
    {
      |mac| == 6 && isnCounter < MOD
    }

    constructor (mac: seq<byte>)
      requires |mac| == 6
      ensures Valid() && isnCounter == 1000 && this.mac == mac
    {
      this.mac, isnCounter := mac, 1000;
    }

    /** The address loop of `send_tcp_packet`, and the type. */
    method PutEthernet(buf: array<byte>, to: seq<byte>)
      requires Valid() && |to| == 6 && buf.Length == BUFFER
      modifies buf
      ensures buf[..] == Splice(old(buf[..]), 0, Ethernet(to, mac))
    {
      ghost var m := buf[..];
      for i := 0 to 6
        invariant forall k | 0 <= k < i :: buf[k] == to[k] && buf[6 + k] == mac[k]
        invariant forall k | 12 <= k < BUFFER :: buf[k] == m[k]
      {
        buf[i] := to[i];
        buf[6 + i] := mac[i];
      }
      assert buf[..6] == to && buf[6..12] == mac;
      assert buf[..] == Splice(m, 0, to + mac);
      SpliceTwice(m, 0, to + mac, Wire16(0x0800));
      PutWire16(buf, 12, 0x0800);
    }

    /** `send_tcp_packet` answering frame `b`: the frame handed to the network device. */
    method SendTcpPacket(buf: array<byte>, b: seq<byte>, r: Reply) returns (frame: seq<byte>)
      requires Valid() && buf.Length == BUFFER && Accepted(b) && Sendable(r)
      modifies buf
      ensures frame == FrameOf(mac, b, r)
    {
      hide Splice, Ethernet, Load32, Tcp.Header, Ipv4.Header, Verifies, Tcp.PseudoHeader;
      var src, dst, fields := Load32(b, 30), Load32(b, 26), FieldsOf(Word(b, 34), r);
      ghost var m, eth := buf[..], Ethernet(b[6..12], mac);
      PutEthernet(buf, b[6..12]);
      ghost var ip := Ipv4.Header(src, dst, Tcp.PROTOCOL, Tcp.SIZE + |r.payload|, 64);
      SpliceTwice(m, 0, eth, ip);
      Ipv4.BuildHeader(buf, ETHERNET, src, dst, Tcp.PROTOCOL, Tcp.SIZE + |r.payload|, 64);
      ghost var m' := buf[..];
      var _ := Http.Append(buf, HEADERS, r.payload);
      ghost var data := buf[HEADERS..HEADERS + |r.payload|];
      SpliceInside(m', HEADERS, r.payload, buf[..]);
      assert data == r.payload;
      ghost var tcp := Tcp.Header(fields, src, dst, r.payload);
      SpliceBefore(m', 34, tcp, r.payload);
      Tcp.BuildHeader(buf, 34, fields, src, dst, |r.payload|);
      SpliceTwice(m, 0, eth + ip, tcp + r.payload);
      Http.SplicePrefix(m, eth + ip + (tcp + r.payload));
      frame := buf[..HEADERS + |r.payload|];
      assert frame == buf[..][..HEADERS + |r.payload|];
    }

    lemma SpliceInside(m: seq<byte>, a: nat, f: seq<byte>, m': seq<byte>)
      requires a + |f| <= |m| && m' == Splice(m, a, f)
      ensures m'[a..a + |f|] == f
    {}

    /** The answer to an ARP request. */
    method AnswerArp(buf: array<byte>, rx: seq<byte>) returns (frame: seq<byte>)
      requires Valid() && buf.Length == BUFFER == |rx|
      modifies buf
      ensures frame == ArpAnswer(mac, rx)
    {
      Arp.BuildReply(buf, mac, Word32(rx, 38), rx[22..28], Word32(rx, 28));
      frame := buf[..Arp.SIZE];
    }

    /** One turn of the loop of `app_http_hello`: `n` bytes were received into `rx`. An ARP request is answered
        for whatever address it asks. For a TCP frame to port 80 the frames sent are the replies of the
        connectionless server, and the counter moves with each SYN. Anything else is ignored. */
    method Process(rx: seq<byte>, n: nat, buf: array<byte>) returns (sent: seq<seq<byte>>)
      requires Valid() && n <= 2048 && |rx| == 2048 && buf.Length == 2048
      modifies this, buf
      ensures Valid()
      ensures IsArpRequest(rx, n) ==> sent == [ArpAnswer(mac, rx)]
      ensures !IsArpRequest(rx, n) && !Accepted(rx[..n]) ==> sent == []
      ensures n < 54 && !IsArpRequest(rx, n) ==> sent == []
      ensures isnCounter == if Accepted(rx[..n]) && rx[47] / 2 % 2 == 1 then (old(isnCounter) + 1) % 0x1_0000_0000
                            else old(isnCounter)
      ensures Accepted(rx[..n]) ==> Served(mac, rx[..n], old(isnCounter), isnCounter, sent)
    {
      hide ArpAnswer, Served;
      sent := [];
      if n < ETHERNET { return; }
      if Word(rx, 12) == Arp.TYPE {
        if Word(rx, 20) == Arp.REQUEST {
          var frame := AnswerArp(buf, rx);
          sent := [frame];
        }
        return;
      }
      var b := rx[..n];
      if Word(rx, 12) != 0x0800 || n < HEADERS || b[23] != Tcp.PROTOCOL || Word(b, 36) != PORT { return; }
      sent := ProcessTcp(b, buf);
      ServedCounts(mac, b, old(isnCounter), isnCounter, sent);
    }

    /** The three tests of the turn, for a TCP frame to port 80. */
    method ProcessTcp(b: seq<byte>, buf: array<byte>) returns (sent: seq<seq<byte>>)
      requires Valid() && buf.Length == BUFFER && Accepted(b)
      modifies this, buf
      ensures Valid()
      ensures Served(mac, b, old(isnCounter), isnCounter, sent)
    {
      hide Parse, FrameOf, Http.Response;
      sent := [];
      var s := Parse(b);
      ghost var rs: seq<Reply> := [];
      if s.syn {
        var ourIsn := isnCounter;
        isnCounter := Plus(isnCounter, 1);
        var r := Reply(SynAck, ourIsn, Plus(s.seqNum, 1), []);
        var frame := SendTcpPacket(buf, b, r);
        rs, sent := rs + [r], sent + [frame];
      }
      if s.len > 0 {
        Http.ResponseFits(s.peer.ip);
        var httpBuf := new byte[192];
        var n := Http.BuildResponse(httpBuf, s.peer.ip);
        var r := Reply(Data, s.ackNum, Plus(s.seqNum, s.len), httpBuf[..n]);
        var frame := SendTcpPacket(buf, b, r);
        rs, sent := rs + [r], sent + [frame];
      }
      if s.fin && !s.syn {
        var r := Reply(FinAck, s.ackNum, Plus(s.seqNum, 1), []);
        var frame := SendTcpPacket(buf, b, r);
        rs, sent := rs + [r], sent + [frame];
      }
      assert rs == Stateless(old(isnCounter), s);
    }
  }
}
