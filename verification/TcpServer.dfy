/** The connectionless TCP server: its replies are computed from one segment and a counter, and are to be those
    of a server that keeps SND.NXT and RCV.NXT for every connection (section 3.4 of RFC 9293). */
module TcpServer {
  import opened Bytes
  import opened Transitions
  import Http

  const MOD: nat := 0x1_0000_0000

  /** Sequence number arithmetic. */
  function Plus(a: nat, n: nat): (r: nat)
    ensures r < MOD
  {
    (a + n) % MOD
  }

  datatype Peer = Peer(ip: nat, port: nat)

  /** What the server looks at in a segment; `len` is the payload length. */
  datatype Segment = Segment(peer: Peer, seqNum: nat, ackNum: nat, syn: bool, fin: bool, len: nat) {
    /** How many of SYN, data and FIN it carries. */
    function Parts(): nat {
      (if syn then 1 else 0) + (if len > 0 then 1 else 0) + (if fin then 1 else 0)
    }

    /** The sequence space it takes. */
    function Size(): nat {
      (if syn then 1 else 0) + len + (if fin then 1 else 0)
    }

    ghost predicate Ok() {
      peer.ip < 0x1_0000_0000 && seqNum < MOD && ackNum < MOD && len < 0x1_0000
    }
  }

  datatype Kind = SynAck | Data | FinAck

  datatype Reply = Reply(kind: Kind, seqNum: nat, ackNum: nat, payload: seq<byte>)

  // ---------------------------------------------------------------- the two servers

  /** The code: three independent tests, each reply from the segment alone; a counter for initial numbers. */
  function Stateless(isn: nat, s: Segment): seq<Reply> {
    (if s.syn then [Reply(SynAck, isn, Plus(s.seqNum, 1), [])] else [])
    + (if s.len > 0 then [Reply(Data, s.ackNum, Plus(s.seqNum, s.len), Http.Response(s.peer.ip))] else [])
    + (if s.fin && !s.syn then [Reply(FinAck, s.ackNum, Plus(s.seqNum, 1), [])] else [])
  }

  function NextIsn(isn: nat, s: Segment): nat {
    if s.syn then Plus(isn, 1) else isn
  }

  /** How many replies a segment gets, and the numbers in the first and the last of them: a FIN on a SYN gets none of its
      own. */
  lemma {:induction false} RepliesOf(isn: nat, s: Segment)
    ensures var rs := Stateless(isn, s);
            && |rs| == (if s.syn then 1 else 0) + (if s.len > 0 then 1 else 0) + (if s.fin && !s.syn then 1 else 0)
            && (s.syn ==> rs[0] == Reply(SynAck, isn, (s.seqNum + 1) % 0x1_0000_0000, []))
            && (s.len > 0 ==>
                  rs[if s.syn then 1 else 0]
                  == Reply(Data, s.ackNum, (s.seqNum + s.len) % 0x1_0000_0000, Http.Response(s.peer.ip)))
            && (s.fin && !s.syn ==> rs[|rs| - 1] == Reply(FinAck, s.ackNum, (s.seqNum + 1) % 0x1_0000_0000, []))
  {
    hide Http.Response;
  }

  /** What a connection remembers. */
  datatype Tcb = Tcb(sndNxt: nat, rcvNxt: nat)

  datatype Turn = Turn(tcb: Tcb, replies: seq<Reply>)

  /** SYN opens the connection. */
  function OnSyn(isn: nat, s: Segment, t: Turn): Turn {
    if !s.syn then t
    else Turn(Tcb(Plus(isn, 1), Plus(s.seqNum, 1)), t.replies + [Reply(SynAck, isn, Plus(s.seqNum, 1), [])])
  }

  /** Data advances what was received, and the response what was sent. */
  function OnData(s: Segment, t: Turn): Turn {
    if s.len == 0 then t
    else
      var rcvNxt := Plus(t.tcb.rcvNxt, s.len);
      var response := Http.Response(s.peer.ip);
      Turn(Tcb(Plus(t.tcb.sndNxt, |response|), rcvNxt), t.replies + [Reply(Data, t.tcb.sndNxt, rcvNxt, response)])
  }

  /** FIN takes one number after the data. */
  function OnFin(s: Segment, t: Turn): Turn {
    if !s.fin then t
    else
      var rcvNxt := Plus(t.tcb.rcvNxt, 1);
      Turn(Tcb(t.tcb.sndNxt, rcvNxt), t.replies + [Reply(FinAck, t.tcb.sndNxt, rcvNxt, [])])
  }

  /** The server with state: SYN, data and FIN in the order of their sequence numbers. */
  function Stateful(isn: nat, tcb: Tcb, s: Segment): Turn {
    OnFin(s, OnData(s, OnSyn(isn, s, Turn(tcb, []))))
  }

  /** The segment is the next one its connection expects. */
  predicate Expected(tcb: Tcb, s: Segment) {
    s.syn || (s.seqNum == tcb.rcvNxt && s.ackNum == tcb.sndNxt)
  }

  /** On an expected segment the two servers reply alike exactly when it carries at most one of SYN, data and
      FIN: data on a SYN or a FIN, and a FIN on a SYN, are answered with wrong numbers or not at all. */
  lemma {:induction false} AgreeIffOnePart(isn: nat, tcb: Tcb, s: Segment)
    requires s.Ok() && Expected(tcb, s)
    ensures Stateless(isn, s) == Stateful(isn, tcb, s).replies <==> s.Parts() <= 1
  {
    hide Http.Response;
    if s.Parts() > 1 {
      PartsDiffer(isn, tcb, s);
    }
  }

  lemma {:induction false} PartsDiffer(isn: nat, tcb: Tcb, s: Segment)
    requires s.Ok() && Expected(tcb, s) && s.Parts() > 1
    ensures Stateless(isn, s) != Stateful(isn, tcb, s).replies
  {
    hide Http.Response;
    var a, b := Stateless(isn, s), Stateful(isn, tcb, s).replies;
    if s.len == 0 {
      assert |a| == 1 && |b| == 2;
    } else if s.syn {
      assert a[1].ackNum == Plus(s.seqNum, s.len) && b[1].ackNum == Plus(Plus(s.seqNum, 1), s.len);
    } else {
      assert a[1].ackNum == Plus(s.seqNum, 1) && b[1].ackNum == Plus(Plus(s.seqNum, s.len), 1);
    }
  }

  /** A concrete request on a FIN: the acknowledgment of the FIN takes back the data. */
  lemma DataOnFinMisnumbered(isn: nat, peer: Peer)
    ensures var s := Segment(peer, 100, 200, false, true, 10);
            var tcb := Tcb(200, 100);
            && Expected(tcb, s) && |Stateless(isn, s)| == 2
            && Stateless(isn, s)[1].ackNum == 101 && Stateful(isn, tcb, s).replies[1].ackNum == 111
  {
    hide Http.Response;
  }

  // ---------------------------------------------------------------- lossless clients

  /** A client waits for the reply to what it sent before it sends again. */
  datatype Phase = Idle | Waiting(sent: Segment) | Finished

  /** What is under way between a client and the server. */
  datatype Wire = Empty | Request(segment: Segment) | Replies(replies: seq<Reply>)

  /** A client's own numbers and what it has under way: the exchange it waits for, and acknowledgments that carry
      nothing. Of the connection so far: the bytes received, how many requests were sent and how many answered,
      how many replies were rejected, and what the server said to the acknowledgments. */
  datatype Conn = Conn(
    phase: Phase, sndNxt: nat, rcvNxt: nat, wire: Wire, acks: seq<Segment>,
    received: seq<byte>, requests: nat, answered: nat, rejected: nat, unasked: seq<Reply>)

  /** Everything: the server's counter, the state it does not keep, and the clients. */
  datatype World = World(isn: nat, tcbs: map<Peer, Tcb>, conns: map<Peer, Conn>)

  datatype Step =
    | Connect(peer: Peer, iss: nat)
    | SendData(peer: Peer, len: nat)
    | SendFin(peer: Peer)
    | SendAck(peer: Peer)
    | Serve(peer: Peer)
    | ServeAck(peer: Peer, k: nat)
    | Deliver(peer: Peer)

  /** Before anything was sent. */
  const INITIAL: World := World(1000, map[], map[])

  /** A client sends a segment and waits. */
  function Sent(c: Conn, s: Segment): Conn {
    c.(phase := Waiting(s), sndNxt := Plus(s.seqNum, s.Size()), wire := Request(s),
       requests := c.requests + if s.len > 0 then 1 else 0)
  }

  /** A client that opens a connection; acknowledgments of an earlier one may still be under way. */
  function Opening(w: World, p: Peer, iss: nat): Conn {
    var acks := if p in w.conns then w.conns[p].acks else [];
    Sent(Conn(Idle, iss, 0, Empty, acks, [], 0, 0, 0, []), Segment(p, iss, 0, true, false, 0))
  }

  /** The next segment of an established connection: data, or FIN, or neither. */
  function NextSegment(p: Peer, c: Conn, fin: bool, len: nat): Segment {
    Segment(p, c.sndNxt, c.rcvNxt, false, fin, len)
  }

  /** The server takes segment `s` of peer `p`, whose connection becomes `c`. */
  function Taking(w: World, p: Peer, s: Segment, c: Conn): World {
    World(NextIsn(w.isn, s), w.tcbs[p := Stateful(w.isn, TcbOf(w, p), s).tcb], w.conns[p := c])
  }

  /** Acknowledgment `k` is served, in whatever order the acknowledgments arrive. */
  function AckServed(w: World, c: Conn, k: nat): Conn
    requires k < |c.acks|
  {
    c.(acks := c.acks[..k] + c.acks[k + 1..], unasked := c.unasked + Stateless(w.isn, c.acks[k]))
  }

  /** The reply is the next one the client expects. */
  predicate Acceptable(c: Conn, s: Segment, r: Reply) {
    && r.ackNum == c.sndNxt
    && (r.kind.SynAck? <==> s.syn) && (r.kind.Data? <==> s.len > 0) && (r.kind.FinAck? <==> s.fin)
    && (s.syn || r.seqNum == c.rcvNxt)
  }

  /** A client takes the first reply. */
  function Taken(c: Conn): Conn
    requires c.wire.Replies? && c.wire.replies != [] && c.phase.Waiting?
  {
    var r, s := c.wire.replies[0], c.phase.sent;
    var rest := c.wire.replies[1..];
    var c' := c.(wire := if rest == [] then Empty else Replies(rest));
    if !Acceptable(c, s, r) then c'.(rejected := c.rejected + 1)
    else
      c'.(phase := if s.fin then Finished else Idle,
          rcvNxt := if s.syn then Plus(r.seqNum, 1) else Plus(c.rcvNxt, |r.payload|),
          received := c.received + r.payload,
          answered := c.answered + if s.len > 0 then 1 else 0)
  }

  ghost predicate Next(w: World, a: Step, w': World) {
    match a
    case Connect(p, iss) =>
      && p.ip < 0x1_0000_0000 && iss < MOD && (p in w.conns ==> w.conns[p].phase.Finished?)
      && w' == w.(conns := w.conns[p := Opening(w, p, iss)])
    case SendData(p, len) =>
      && p in w.conns && w.conns[p].phase.Idle? && 0 < len < 0x1_0000
      && w' == w.(conns := w.conns[p := Sent(w.conns[p], NextSegment(p, w.conns[p], false, len))])
    case SendFin(p) =>
      && p in w.conns && w.conns[p].phase.Idle?
      && w' == w.(conns := w.conns[p := Sent(w.conns[p], NextSegment(p, w.conns[p], true, 0))])
    case SendAck(p) =>
      && p in w.conns
      && var c := w.conns[p];
         w' == w.(conns := w.conns[p := c.(acks := c.acks + [NextSegment(p, c, false, 0)])])
    case Serve(p) =>
      && p in w.conns && w.conns[p].wire.Request?
      && var c := w.conns[p];
         w' == Taking(w, p, c.wire.segment, c.(wire := Replies(Stateless(w.isn, c.wire.segment))))
    case ServeAck(p, k) =>
      && p in w.conns && k < |w.conns[p].acks|
      && w' == Taking(w, p, w.conns[p].acks[k], AckServed(w, w.conns[p], k))
    case Deliver(p) =>
      && p in w.conns && w.conns[p].wire.Replies? && w.conns[p].wire.replies != [] && w.conns[p].phase.Waiting?
      && w' == w.(conns := w.conns[p := Taken(w.conns[p])])
  }

  function TcbOf(w: World, p: Peer): Tcb {
    if p in w.tcbs then w.tcbs[p] else Tcb(0, 0)
  }

  /** `n` whole responses. */
  function Responses(ip: nat, n: nat): seq<byte> {
    if n == 0 then [] else Responses(ip, n - 1) + Http.Response(ip)
  }

  /** Client and connection agree, wherever their one exchange is. */
  ghost predicate Agrees(p: Peer, t: Tcb, c: Conn) {
    && p.ip < 0x1_0000_0000 && c.sndNxt < MOD && c.rcvNxt < MOD
    && match c.phase {
         case Idle => c.wire.Empty? && t == Tcb(c.rcvNxt, c.sndNxt)
         case Finished => c.wire.Empty?
         case Waiting(s) => Exchange(p, t, c, s)
       }
  }

  /** The segment waited for, and where it or its reply is. */
  ghost predicate Exchange(p: Peer, t: Tcb, c: Conn, s: Segment) {
    && s.Ok() && s.peer == p && s.Parts() == 1 && c.sndNxt == Plus(s.seqNum, s.Size())
    && (s.syn || s.ackNum == c.rcvNxt)
    && match c.wire {
         case Empty => false
         case Request(s') => s' == s && Expected(t, s)
         case Replies(rs) => |rs| == 1 && Answers(p, t, c, s, rs[0])
       }
  }

  /** The reply under way is acceptable, and taking it brings client and connection together. */
  ghost predicate Answers(p: Peer, t: Tcb, c: Conn, s: Segment, r: Reply) {
    && Acceptable(c, s, r) && t.rcvNxt == c.sndNxt
    && t.sndNxt == (if s.syn then Plus(r.seqNum, 1) else Plus(c.rcvNxt, |r.payload|))
    && r.payload == if s.len > 0 then Http.Response(p.ip) else []
  }

  /** A request was sent whose response has not arrived. */
  function Outstanding(c: Conn): nat {
    if c.phase.Waiting? && c.phase.sent.len > 0 then 1 else 0
  }

  /** Nothing was rejected or sent unasked, and what was received is whole responses, one for every request but
      the one outstanding. */
  ghost predicate Whole(p: Peer, c: Conn) {
    && c.rejected == 0 && c.unasked == [] && c.received == Responses(p.ip, c.answered)
    && c.requests == c.answered + Outstanding(c)
    && forall s | s in c.acks :: s.Parts() == 0
  }

  ghost predicate Inv(w: World) {
    && w.isn < MOD
    && (forall p | p in w.conns :: Agrees(p, TcbOf(w, p), w.conns[p]) && Whole(p, w.conns[p]))
  }

  // ---------------------------------------------------------------- one exchange

  lemma {:induction false} SendAgrees(p: Peer, t: Tcb, c: Conn, s: Segment)
    requires p.ip < 0x1_0000_0000 && s.Ok() && s.peer == p && s.Parts() == 1 && Expected(t, s)
    requires c.rcvNxt < MOD && (s.syn || s.ackNum == c.rcvNxt)
    ensures Agrees(p, t, Sent(c, s))
  {
    hide Http.Response;
  }

  lemma {:induction false} ServeAgrees(p: Peer, isn: nat, t: Tcb, c: Conn)
    requires Agrees(p, t, c) && c.wire.Request? && isn < MOD
    ensures var s := c.wire.segment;
            Agrees(p, Stateful(isn, t, s).tcb, c.(wire := Replies(Stateless(isn, s))))
  {
    hide Http.Response;
    var s := c.phase.sent;
    assert Stateless(isn, s) == if s.syn then [Reply(SynAck, isn, Plus(s.seqNum, 1), [])]
                                else if s.len > 0 then [Reply(Data, s.ackNum, Plus(s.seqNum, s.len), Http.Response(p.ip))]
                                else [Reply(FinAck, s.ackNum, Plus(s.seqNum, 1), [])];
  }

  lemma {:induction false} TakeAgrees(p: Peer, t: Tcb, c: Conn)
    requires Agrees(p, t, c) && Whole(p, c) && c.wire.Replies? && c.phase.Waiting?
    ensures Agrees(p, t, Taken(c)) && Whole(p, Taken(c))
  {
    hide Http.Response;
    assert c.wire.replies[1..] == [];
    assert c.received + [] == c.received;
  }

  /** A segment that carries nothing gets no reply and moves nothing, from either server. */
  lemma {:induction false} AckChangesNothing(isn: nat, t: Tcb, s: Segment)
    requires s.Parts() == 0
    ensures Stateless(isn, s) == [] && Stateful(isn, t, s) == Turn(t, []) && NextIsn(isn, s) == isn
  {
    hide Http.Response;
  }

  lemma {:induction false} AckSent(p: Peer, t: Tcb, c: Conn)
    requires Agrees(p, t, c) && Whole(p, c)
    ensures var c' := c.(acks := c.acks + [NextSegment(p, c, false, 0)]);
            Agrees(p, t, c') && Whole(p, c')
  {
    hide Http.Response;
  }

  lemma {:induction false} AckTaken(w: World, p: Peer, k: nat)
    requires Inv(w) && p in w.conns && k < |w.conns[p].acks|
    ensures var c := w.conns[p];
            var w' := Taking(w, p, c.acks[k], AckServed(w, c, k));
            && w'.isn == w.isn && TcbOf(w', p) == TcbOf(w, p)
            && Agrees(p, TcbOf(w', p), w'.conns[p]) && Whole(p, w'.conns[p])
  {
    hide Http.Response;
    var c := w.conns[p];
    assert c.acks[k] in c.acks;
    AckChangesNothing(w.isn, TcbOf(w, p), c.acks[k]);
    assert AckServed(w, c, k).unasked == [];
  }

  // ---------------------------------------------------------------- every run

  /** A step at one peer leaves the others as they were. */
  lemma {:induction false} OneChanged(w: World, p: Peer, w': World)
    requires Inv(w) && w'.isn < MOD && p in w'.conns
    requires forall q | q != p :: (q in w'.conns <==> q in w.conns) && TcbOf(w', q) == TcbOf(w, q)
    requires forall q | q != p && q in w.conns :: w'.conns[q] == w.conns[q]
    requires Agrees(p, TcbOf(w', p), w'.conns[p]) && Whole(p, w'.conns[p])
    ensures Inv(w')
  {
    hide Http.Response;
  }

  lemma {:induction false} NextKeepsInv(w: World, a: Step, w': World)
    requires Inv(w) && Next(w, a, w')
    ensures Inv(w')
  {
    hide Agrees, Stateful, Stateless, Whole, Http.Response, Responses, Taken, AckServed, Opening;
    match a {
      case Connect(p, iss) =>
        ConnectAgrees(w, p, iss);
        OneChanged(w, p, w');
      case SendData(p, len) =>
        IdleSends(w, p, len, false);
        OneChanged(w, p, w');
      case SendFin(p) =>
        IdleSends(w, p, 0, true);
        OneChanged(w, p, w');
      case SendAck(p) =>
        AckSent(p, TcbOf(w, p), w.conns[p]);
        OneChanged(w, p, w');
      case Serve(p) =>
        ServeAgrees(p, w.isn, TcbOf(w, p), w.conns[p]);
        ServedWhole(p, w.conns[p], Stateless(w.isn, w.conns[p].wire.segment));
        OneChanged(w, p, w');
      case ServeAck(p, k) =>
        AckTaken(w, p, k);
        OneChanged(w, p, w');
      case Deliver(p) =>
        TakeAgrees(p, TcbOf(w, p), w.conns[p]);
        OneChanged(w, p, w');
    }
  }

  lemma {:induction false} IdleSends(w: World, p: Peer, len: nat, fin: bool)
    requires Inv(w) && p in w.conns && w.conns[p].phase.Idle? && len < 0x1_0000 && (len > 0 <==> !fin)
    ensures var c := w.conns[p];
            var c' := Sent(c, NextSegment(p, c, fin, len));
            Agrees(p, TcbOf(w, p), c') && Whole(p, c')
  {
    hide Http.Response;
    var c := w.conns[p];
    SendAgrees(p, TcbOf(w, p), c, NextSegment(p, c, fin, len));
  }

  lemma {:induction false} ConnectAgrees(w: World, p: Peer, iss: nat)
    requires Inv(w) && p.ip < 0x1_0000_0000 && iss < MOD
    ensures Agrees(p, TcbOf(w, p), Opening(w, p, iss)) && Whole(p, Opening(w, p, iss))
  {
    hide Http.Response;
  }

  lemma ServedWhole(p: Peer, c: Conn, rs: seq<Reply>)
    requires Whole(p, c)
    ensures Whole(p, c.(wire := Replies(rs)))
  {
    hide Http.Response;
  }

  lemma {:induction false} EveryRunKeepsInv(t: seq<Step>, w: World)
    requires Runs(Next, INITIAL, t, w)
    ensures Inv(w)
  {
    hide Http.Response;
    forall a, b, c | Inv(a) && Next(a, b, c)
      ensures Inv(c)
    {
      NextKeepsInv(a, b, c);
    }
    assert Inv(INITIAL);
    hide Inv, Next;
    Invariant(Next, _ => true, Inv, INITIAL, t, w);
  }

  /** Segment `s` is under way from its client to the server. */
  predicate UnderWay(c: Conn, s: Segment) {
    (c.wire.Request? && c.wire.segment == s) || s in c.acks
  }

  /** In every run of any number of interleaved clients, every reply is the one the server with state sends; an
      acknowledgment gets none, and moves neither server. */
  lemma {:induction false} RefinesStateful(t: seq<Step>, w: World, p: Peer, s: Segment)
    requires Runs(Next, INITIAL, t, w) && p in w.conns && UnderWay(w.conns[p], s)
    ensures Stateless(w.isn, s) == Stateful(w.isn, TcbOf(w, p), s).replies
    ensures s in w.conns[p].acks ==> Stateless(w.isn, s) == [] && Stateful(w.isn, TcbOf(w, p), s).tcb == TcbOf(w, p)
  {
    hide Http.Response;
    EveryRunKeepsInv(t, w);
    if s in w.conns[p].acks {
      AckChangesNothing(w.isn, TcbOf(w, p), s);
    } else {
      AgreeIffOnePart(w.isn, TcbOf(w, p), s);
    }
  }

  /** The reply `r` to `s`: it acknowledges everything the client sent, starts where the client expects the next byte,
      unless it opens the connection, and carries a response exactly to a request. */
  ghost predicate AsExpected(p: Peer, c: Conn, s: Segment, r: Reply) {
    && r.ackNum == c.sndNxt == (s.seqNum + s.Size()) % 0x1_0000_0000
    && (r.kind.SynAck? || r.seqNum == c.rcvNxt)
    && r.kind == (if s.syn then SynAck else if s.len > 0 then Data else FinAck)
    && r.payload == if s.len > 0 then Http.Response(p.ip) else []
  }

  /** A reply under way is the only one, and as its client expects it. */
  lemma {:induction false} RepliesExpected(t: seq<Step>, w: World, p: Peer)
    requires Runs(Next, INITIAL, t, w) && p in w.conns && w.conns[p].wire.Replies?
    ensures var c := w.conns[p];
            |c.wire.replies| == 1 && c.phase.Waiting? && AsExpected(p, c, c.phase.sent, c.wire.replies[0])
  {
    hide Http.Response;
    EveryRunKeepsInv(t, w);
    ReplyOf(p, TcbOf(w, p), w.conns[p]);
    hide Inv, Agrees, Whole, Next, AsExpected;
  }

  lemma {:induction false} ReplyOf(p: Peer, t: Tcb, c: Conn)
    requires Agrees(p, t, c) && c.wire.Replies?
    ensures |c.wire.replies| == 1 && c.phase.Waiting? && AsExpected(p, c, c.phase.sent, c.wire.replies[0])
  {
    hide Http.Response;
  }

  /** No client ever rejects a reply or is sent one unasked, and each receives whole responses without a gap: one
      for every request sent except the one it may be waiting for, every reply starting at the number after the
      last byte received. */
  lemma {:induction false} GapFreeResponses(t: seq<Step>, w: World, p: Peer)
    requires Runs(Next, World(1000, map[], map[]), t, w) && p in w.conns
    ensures w.conns[p].rejected == 0 && w.conns[p].unasked == []
    ensures w.conns[p].received == Responses(p.ip, w.conns[p].answered)
    ensures w.conns[p].requests == w.conns[p].answered + Outstanding(w.conns[p])
  {
    hide Http.Response;
    EveryRunKeepsInv(t, w);
  }
}
