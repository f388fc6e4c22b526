/** The greeting the HTTP server sends: its bytes, and what a reader of them finds. */
module Http {
  import opened Bytes
  import opened Decimal

  const DOT: byte := 46
  const LINE_FEED: byte := 10

  /** Characters as bytes. */
  function Ascii(s: string): (b: seq<byte>)
    ensures |b| == |s|
  {
    seq(|s|, i requires 0 <= i < |s| => s[i] as int % 256)
  }

  function Head(): (b: seq<byte>)
    ensures |b| == 83
  {
    Ascii("HTTP/1.1 200 OK\r\nConnection: keep-alive\r\nContent-Type: text/plain\r\nContent-Length: ")
  }

  function Hello(): (b: seq<byte>)
    ensures |b| == 7
  {
    Ascii("Hello, ")
  }

  /** The empty line that ends the headers. */
  function BlankLine(): (b: seq<byte>)
    ensures b == [13, 10, 13, 10]
  {
    Ascii("\r\n\r\n")
  }

  /** Octet `k` of an address in host order, from the right. */
  function Octet(ip: nat, k: nat): (o: nat)
    requires k < 4
    ensures o < 256
  {
    (if k == 0 then ip else if k == 1 then ip / 0x100 else if k == 2 then ip / 0x1_0000 else ip / 0x100_0000) % 0x100
  }

  /** A numeral, the byte after it, and the rest. */
  function Numeral(n: nat, c: byte, rest: seq<byte>): seq<byte> {
    Digits(n) + ([c] + rest)
  }

  /** A dotted quad and the end of its line. */
  function Quad(a: nat, b: nat, c: nat, d: nat): seq<byte> {
    Numeral(a, DOT, Numeral(b, DOT, Numeral(c, DOT, Numeral(d, LINE_FEED, []))))
  }

  function Body(ip: nat): seq<byte> {
    Hello() + Quad(Octet(ip, 3), Octet(ip, 2), Octet(ip, 1), Octet(ip, 0))
  }

  function Response(ip: nat): seq<byte> {
    Head() + Digits(|Body(ip)|) + BlankLine() + Body(ip)
  }

  lemma {:induction false} BodySize(ip: nat)
    ensures 15 <= |Body(ip)| <= 23
  {
    U8Digits(Octet(ip, 0));
    U8Digits(Octet(ip, 1));
    U8Digits(Octet(ip, 2));
    U8Digits(Octet(ip, 3));
  }

  /** Every response fits its 192-byte buffer. */
  lemma {:induction false} ResponseFits(ip: nat)
    ensures 0 < |Response(ip)| <= 192
  {
    BodySize(ip);
    U8Digits(|Body(ip)|);
  }

  // ---------------------------------------------------------------- reading it

  /** The address a reader finds: four numbers separated by dots, each below 256. */
  ghost predicate QuadAt(s: seq<byte>, i: nat, ip: nat)
    requires i <= |s|
  {
    var e3 := RunEnd(s, i);
    e3 < |s| && s[e3] == 46 &&
    var e2 := RunEnd(s, e3 + 1);
    e2 < |s| && s[e2] == 46 &&
    var e1 := RunEnd(s, e2 + 1);
    e1 < |s| && s[e1] == 46 &&
    ip == ((NumberAt(s, i) * 0x100 + NumberAt(s, e3 + 1)) * 0x100 + NumberAt(s, e2 + 1)) * 0x100 + NumberAt(s, e1 + 1)
  }

  /** A numeral inside a longer text is read, and what follows starts right after it. */
  lemma {:induction false} ReadsInside(pre: seq<byte>, n: nat, c: byte, rest: seq<byte>)
    requires !IsDigit(c)
    ensures var s := pre + Numeral(n, c, rest);
            && RunEnd(s, |pre|) == |pre| + |Digits(n)| < |s| && NumberAt(s, |pre|) == n && s[|pre| + |Digits(n)|] == c
    ensures pre + Numeral(n, c, rest) == pre + Digits(n) + [c] + rest
  {
    hide Digits;
    var s := pre + Numeral(n, c, rest);
    assert s[|pre|..|pre| + |Digits(n)|] == Digits(n);
    ReadsNumber(s, |pre|, n);
  }

  lemma {:induction false} QuadReads(pre: seq<byte>, a: nat, b: nat, c: nat, d: nat)
    ensures QuadAt(pre + Quad(a, b, c, d), |pre|, ((a * 0x100 + b) * 0x100 + c) * 0x100 + d)
  {
    hide Digits, RunEnd, NumberAt, Numeral;
    var r0 := Numeral(d, LINE_FEED, []);
    var r1 := Numeral(c, DOT, r0);
    var r2 := Numeral(b, DOT, r1);
    ReadsInside(pre, a, DOT, r2);
    ReadsInside(pre + Digits(a) + [DOT], b, DOT, r1);
    ReadsInside(pre + Digits(a) + [DOT] + Digits(b) + [DOT], c, DOT, r0);
    ReadsInside(pre + Digits(a) + [DOT] + Digits(b) + [DOT] + Digits(c) + [DOT], d, LINE_FEED, []);
  }

  lemma {:induction false} Octets(ip: nat)
    requires ip < 0x1_0000_0000
    ensures ip == ((Octet(ip, 3) * 0x100 + Octet(ip, 2)) * 0x100 + Octet(ip, 1)) * 0x100 + Octet(ip, 0)
  {
    var q1, q2, q3 := ip / 0x100, ip / 0x1_0000, ip / 0x100_0000;
    assert q2 == q1 / 0x100 && q3 == q2 / 0x100;
    assert ip == q1 * 0x100 + Octet(ip, 0);
    assert q1 == q2 * 0x100 + Octet(ip, 1);
    assert q2 == q3 * 0x100 + Octet(ip, 2);
  }

  /** The characters of `text`, from position `i` on. */
  ghost predicate Spells(s: seq<byte>, i: nat, text: string) {
    i + |text| <= |s| && forall k | 0 <= k < |text| :: s[i + k] == text[k] as int % 0x100
  }

  lemma {:induction false} AsciiSpells(pre: seq<byte>, text: string, rest: seq<byte>)
    ensures Spells(pre + Ascii(text) + rest, |pre|, text)
  {
    var s := pre + Ascii(text) + rest;
    forall k | 0 <= k < |text|
      ensures s[|pre| + k] == text[k] as int % 0x100
    {
      assert s[|pre| + k] == Ascii(text)[k];
    }
  }

  /** A reader finds the headers, a length that is the number of bytes after the blank line, and in those bytes
      the greeting, the client's address and the end of the line. */
  lemma {:induction false} ResponseReads(ip: nat)
    requires ip < 0x1_0000_0000
    ensures var r := Response(ip);
            83 < |r| &&
            var e := RunEnd(r, 83);
            && e + 11 <= |r| && r[e..e + 4] == [13, 10, 13, 10]
            && Spells(r, 0,
                      "HTTP/1.1 200 OK\r\nConnection: keep-alive\r\nContent-Type: text/plain\r\nContent-Length: ")
            && NumberAt(r, 83) == |r| - (e + 4)
            && Spells(r, e + 4, "Hello, ") && QuadAt(r, e + 11, ip) && r[|r| - 1] == 10
  {
    hide Digits, RunEnd, Head, Hello, NumberAt, QuadAt, Spells, Body;
    ResponseParts(ip);
    HeadSpells(Digits(|Body(ip)|) + BlankLine() + Body(ip));
    assert Response(ip) == Head() + (Digits(|Body(ip)|) + BlankLine() + Body(ip));
    HelloSpells(ip);
  }

  lemma {:induction false} ResponseParts(ip: nat)
    requires ip < 0x1_0000_0000
    ensures var r := Response(ip);
            |Head()| < |r| &&
            var e := RunEnd(r, |Head()|);
            && e == |Head()| + |Digits(|Body(ip)|)| && e + 11 <= |r| && r[e..e + 4] == BlankLine()
            && NumberAt(r, |Head()|) == |r| - (e + 4) && QuadAt(r, e + 11, ip)
  {
    hide Digits, RunEnd, Head, Hello, NumberAt, Quad, QuadAt, Octet;
    var n := |Body(ip)|;
    BodySize(ip);
    var quad := Quad(Octet(ip, 3), Octet(ip, 2), Octet(ip, 1), Octet(ip, 0));
    HeadReads(Head(), n, Body(ip));
    Octets(ip);
    QuadReads(Head() + Digits(n) + BlankLine() + Hello(), Octet(ip, 3), Octet(ip, 2), Octet(ip, 1), Octet(ip, 0));
    assert Response(ip) == Head() + Digits(n) + BlankLine() + Hello() + quad;
  }

  lemma {:induction false} HeadSpells(rest: seq<byte>)
    ensures Spells(Head() + rest, 0,
                   "HTTP/1.1 200 OK\r\nConnection: keep-alive\r\nContent-Type: text/plain\r\nContent-Length: ")
  {
    var text := "HTTP/1.1 200 OK\r\nConnection: keep-alive\r\nContent-Type: text/plain\r\nContent-Length: ";
    AsciiSpells([], text, rest);
    assert [] + Ascii(text) + rest == Head() + rest;
  }

  lemma {:induction false} HelloSpells(ip: nat)
    ensures var pre := Head() + Digits(|Body(ip)|) + BlankLine();
            Spells(Response(ip), |pre|, "Hello, ") && Response(ip)[|Response(ip)| - 1] == 10
  {
    hide Digits, Head;
    var pre := Head() + Digits(|Body(ip)|) + BlankLine();
    var quad := Quad(Octet(ip, 3), Octet(ip, 2), Octet(ip, 1), Octet(ip, 0));
    AsciiSpells(pre, "Hello, ", quad);
    assert Response(ip) == pre + Ascii("Hello, ") + quad;
    assert quad[|quad| - 1] == 10;
  }

  lemma {:induction false} HeadReads(head: seq<byte>, n: nat, body: seq<byte>)
    ensures var r := head + Digits(n) + BlankLine() + body;
            && RunEnd(r, |head|) == |head| + |Digits(n)| && NumberAt(r, |head|) == n
            && r[..|head|] == head && r[|head| + |Digits(n)|..|head| + |Digits(n)| + 4] == BlankLine()
  {
    hide Digits, RunEnd, NumberAt;
    ReadsInside(head, n, 13, [10, 13, 10] + body);
    assert head + Digits(n) + [13] + ([10, 13, 10] + body) == head + Digits(n) + BlankLine() + body;
  }

  // ---------------------------------------------------------------- writing it

  /** Copy a string into the buffer. */
  method Append(a: array<byte>, at: nat, s: seq<byte>) returns (len: nat)
    requires at + |s| <= a.Length
    modifies a
    ensures len == at + |s| && a[..] == Splice(old(a[..]), at, s)
  {
    ghost var m := a[..];
    SpliceNone(m, at, s);
    len := at;
    for i := 0 to |s|
      invariant len == at + i && a[..] == Splice(m, at, s[..i])
    {
      SpliceNext(m, at, s, i);
      a[len] := s[i];
      len := len + 1;
    }
    SpliceAll(m, at, s);
  }

  /** Append a numeral and the byte after it; `f` is what was appended before. */
  method AppendU8(a: array<byte>, at: nat, value: nat, c: byte, ghost m: seq<byte>, ghost f: seq<byte>)
    returns (len: nat, ghost f': seq<byte>)
    requires value < 256 && |m| == a.Length && at == |f| && at + 4 <= a.Length && a[..] == Splice(m, 0, f)
    modifies a
    ensures f' == f + Digits(value) + [c] && len == |f'| <= at + 4 && a[..] == Splice(m, 0, f')
  {
    U8Digits(value);
    hide Digits, Splice;
    SpliceTwice(m, 0, f, Digits(value));
    len := WriteU8(a, at, value);
    len := at + len;
    f' := f + Digits(value);
    SpliceTwice(m, 0, f', [c]);
    StoreOne(a[..], len, c);
    a[len] := c;
    len := len + 1;
    f' := f' + [c];
  }

  lemma StoreOne(m: seq<byte>, at: nat, c: byte)
    requires at < |m|
    ensures m[at := c] == Splice(m, at, [c])
  {}

  /** `write_hello_ip` */
  method WriteHello(body: array<byte>, ip: nat) returns (len: nat)
    requires body.Length == 32
    modifies body
    ensures len == |Body(ip)| && len <= 23 && body[..len] == Body(ip)
  {
    hide Digits, Splice, Octet, Hello;
    ghost var m, f := body[..], Hello();
    len := Append(body, 0, Hello());
    len, f := AppendU8(body, len, Octet(ip, 3), DOT, m, f);
    len, f := AppendU8(body, len, Octet(ip, 2), DOT, m, f);
    len, f := AppendU8(body, len, Octet(ip, 1), DOT, m, f);
    len, f := AppendU8(body, len, Octet(ip, 0), LINE_FEED, m, f);
    assert f == Body(ip) by {
      Regroup(Hello(), Octet(ip, 3), Octet(ip, 2), Octet(ip, 1), Octet(ip, 0));
    }
    BodySize(ip);
    SplicePrefix(m, f);
  }

  lemma {:induction false} Regroup(pre: seq<byte>, a: nat, b: nat, c: nat, d: nat)
    ensures pre + Digits(a) + [DOT] + Digits(b) + [DOT] + Digits(c) + [DOT] + Digits(d) + [LINE_FEED]
         == pre + Quad(a, b, c, d)
  {
    hide Digits, Numeral;
    var r0 := Numeral(d, LINE_FEED, []);
    var r1 := Numeral(c, DOT, r0);
    var r2 := Numeral(b, DOT, r1);
    ReadsInside(pre, a, DOT, r2);
    ReadsInside(pre + Digits(a) + [DOT], b, DOT, r1);
    ReadsInside(pre + Digits(a) + [DOT] + Digits(b) + [DOT], c, DOT, r0);
    var last := pre + Digits(a) + [DOT] + Digits(b) + [DOT] + Digits(c) + [DOT];
    ReadsInside(last, d, LINE_FEED, []);
    assert last + Digits(d) + [LINE_FEED] + [] == last + Digits(d) + [LINE_FEED];
  }

  lemma SplicePrefix(m: seq<byte>, f: seq<byte>)
    requires |f| <= |m|
    ensures Splice(m, 0, f)[..|f|] == f
  {}

  /** `build_http_response` */
  method BuildResponse(buf: array<byte>, ip: nat) returns (len: nat)
    requires buf.Length == 192
    modifies buf
    ensures len == |Response(ip)| && len <= 192 && buf[..len] == Response(ip)
  {
    hide Digits, Splice, Octet, Head, Hello, Body;
    var body := new byte[32];
    var bodyLen := WriteHello(body, ip);
    BodySize(ip);
    U8Digits(bodyLen);
    ghost var m, f := buf[..], Head();
    len := Append(buf, 0, Head());
    SpliceTwice(m, 0, f, Digits(bodyLen));
    f := f + Digits(bodyLen);
    var n := WriteSize(buf, len, bodyLen);
    len := len + n;
    SpliceTwice(m, 0, f, BlankLine());
    f := f + BlankLine();
    len := Append(buf, len, BlankLine());
    SpliceTwice(m, 0, f, Body(ip));
    f := f + Body(ip);
    len := Append(buf, len, body[..bodyLen]);
    SplicePrefix(m, f);
  }
}
