/** The ping-N / pong-(N+1) exchange of the packet printer. */
module Ping {
  import opened Bytes
  import opened Decimal

  /** "ping-" and "pong-" */
  const PING: seq<byte> := [112, 105, 110, 103, 45]
  const PONG: seq<byte> := [112, 111, 110, 103, 45]

  /** A payload that is answered. */
  predicate IsPing(p: seq<byte>) {
    |p| >= 6 && p[..5] == [112, 105, 110, 103, 45]
  }

  /** The number a payload carries: the value of the digits after the dash, 0 if there are none. */
  function Carried(p: seq<byte>): nat
    requires IsPing(p)
  {
    NumberAt(p, 5)
  }

  lemma {:induction false} ValueGrows(s: seq<byte>, k: nat)
    requires AllDigits(s) && k <= |s|
    ensures Value(s[..k]) <= Value(s)
    decreases |s|
  {
    if k == |s| {
      assert s[..k] == s;
    } else {
      ValueGrows(s[..|s| - 1], k);
      assert s[..|s| - 1][..k] == s[..k];
    }
  }

  /** The parsing loop. Its `int` must be able to hold the number and its successor. */
  method ParseNumber(p: seq<byte>) returns (num: nat)
    requires IsPing(p) && Carried(p) < 0x7FFF_FFFF
    ensures num == Carried(p)
  {
    num := 0;
    var i := 5;
    ghost var end := RunEnd(p, 5);
    while i < |p| && 48 <= p[i] && p[i] <= 57
      invariant 5 <= i <= end == RunEnd(p, i) && AllDigits(p[5..i]) && num == Value(p[5..i])
    {
      assert p[5..i + 1][..i - 5] == p[5..i];
      assert p[5..end][..i + 1 - 5] == p[5..i + 1];
      ValueGrows(p[5..end], i + 1 - 5);
      num := num * 10 + (p[i] - 48);
      assert num <= Carried(p);
      i := i + 1;
    }
  }

  /** The numeral in its buffer: digits extracted last first, then reversed in place. */
  method FormatNumber(numStr: array<byte>, n: nat) returns (count: nat)
    requires numStr.Length == 16 && 0 < n < 0x8000_0000
    modifies numStr
    ensures count <= 10 && numStr[..count] == Digits(n)
  {
    hide Digits, Reverse;
    TenDigits(n);
    count := ExtractDigits(numStr, n);
    ReverseInPlace(numStr, count);
    ReverseTwice(Digits(n));
  }

  /** The reply buffer after answering: "pong-" and the canonical digits of the successor. */
  method Pong(buf: array<byte>, num: nat) returns (len: nat)
    requires num < 0x7FFF_FFFF && buf.Length == 64
    modifies buf
    ensures len <= 15 && buf[..len] == PONG + Digits(num + 1)
  {
    hide Digits;
    buf[0], buf[1], buf[2], buf[3], buf[4] := 112, 111, 110, 103, 45;
    assert buf[..5] == PONG;
    len := 5;
    var numStr := new byte[16];
    var n := FormatNumber(numStr, num + 1);
    ghost var ds := Digits(num + 1);
    for i := 0 to n
      invariant len == 5 + i && buf[..len] == PONG + ds[..i] && numStr[..n] == ds
    {
      assert numStr[i] == numStr[..n][i];
      buf[len] := numStr[i];
      assert buf[..len + 1] == buf[..len] + [numStr[i]] && ds[..i + 1] == ds[..i] + [ds[i]];
      len := len + 1;
    }
    assert ds[..n] == ds;
  }

  lemma {:induction false} ReverseTwice(s: seq<byte>)
    ensures Reverse(Reverse(s)) == s
  {}

  lemma {:induction false} TenDigits(n: nat)
    requires n < 10000000000
    ensures |Digits(n)| <= 10
  {
    assert Power10(2) == 100;
    assert Power10(4) == 10000;
    assert Power10(6) == 1000000;
    assert Power10(8) == 100000000;
    FewDigits(n, 10, Power10(10));
  }

  /** One payload: no reply, or the reply to send. */
  method Answer(p: seq<byte>) returns (reply: seq<byte>)
    requires IsPing(p) ==> Carried(p) < 0x7FFF_FFFF
    ensures !IsPing(p) ==> reply == []
    ensures IsPing(p) ==> reply == [112, 111, 110, 103, 45] + Digits(Carried(p) + 1)
  {
    reply := [];
    if |p| >= 6 && p[0] == 112 && p[1] == 105 && p[2] == 110 && p[3] == 103 && p[4] == 45 {
      assert p[..5] == PING;
      var num := ParseNumber(p);
      var buf := new byte[64];
      var len := Pong(buf, num);
      reply := buf[..len];
    }
  }

  /** The answer, read as a ping is, carries the successor, whatever leading zeros or tail the ping had. */
  lemma {:induction false} AnswerCarriesSuccessor(p: seq<byte>, tail: seq<byte>)
    requires IsPing(p) && (tail == [] || !IsDigit(tail[0]))
    ensures var reply := PONG + Digits(Carried(p) + 1) + tail;
            NumberAt(reply, 5) == Carried(p) + 1
  {
    var ds := Digits(Carried(p) + 1);
    var reply := PONG + ds + tail;
    assert reply[5..5 + |ds|] == ds;
    RunEndIs(reply, 5, 5 + |ds|);
    DigitsDenote(Carried(p) + 1);
  }

  /** Leading zeros and a non-digit tail do not change the number carried. */
  lemma {:induction false} Carries(zeros: nat, n: nat, tail: seq<byte>)
    requires tail == [] || !IsDigit(tail[0])
    ensures var p := PING + ZeroDigits(zeros) + Digits(n) + tail;
            IsPing(p) && Carried(p) == n
  {
    var z, ds := ZeroDigits(zeros), Digits(n);
    var p := PING + z + ds + tail;
    assert p[5..5 + zeros + |ds|] == z + ds;
    RunEndIs(p, 5, 5 + zeros + |ds|);
    DigitsDenote(n);
    ZerosAddNothing(zeros, ds);
    assert p[..5] == PING;
  }

  function ZeroDigits(k: nat): (s: seq<byte>)
    ensures |s| == k && AllDigits(s)
  {
    seq(k, i => 48)
  }

  lemma {:induction false} ZerosAddNothing(k: nat, s: seq<byte>)
    requires AllDigits(s)
    ensures Value(ZeroDigits(k) + s) == Value(s)
    decreases k + |s|
  {
    var zs := ZeroDigits(k) + s;
    if s != [] {
      assert zs[..|zs| - 1] == ZeroDigits(k) + s[..|s| - 1];
      ZerosAddNothing(k, s[..|s| - 1]);
    } else if k > 0 {
      assert zs[..|zs| - 1] == ZeroDigits(k - 1) + s;
      ZerosAddNothing(k - 1, s);
    }
  }
}
