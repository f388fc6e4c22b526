/** Decimal numerals in byte buffers: canonical digits, the value of a run of digits, and the digit loops. */
module Decimal {
  import opened Bytes

  predicate IsDigit(c: byte) {
    48 <= c <= 57
  }

  ghost predicate AllDigits(s: seq<byte>) {
    forall k | 0 <= k < |s| :: IsDigit(s[k])
  }

  /** The canonical numeral of `n`: no leading zeros. */
  function Digits(n: nat): (s: seq<byte>)
    ensures |s| > 0 && AllDigits(s) && (n > 0 ==> s[0] != 48)
  {
    if n < 10 then [48 + n] else Digits(n / 10) + [48 + n % 10]
  }

  /** What a string of digits denotes. */
  function Value(s: seq<byte>): nat
    requires AllDigits(s)
  {
    if s == [] then 0 else 10 * Value(s[..|s| - 1]) + (s[|s| - 1] - 48) as nat
  }

  lemma {:induction false} DigitsDenote(n: nat)
    ensures Value(Digits(n)) == n
  {
    var s := Digits(n);
    if n < 10 {
      assert Value(s[..0]) == 0;
    } else {
      DigitsDenote(n / 10);
      assert s[..|s| - 1] == Digits(n / 10);
    }
  }

  /** A number has only one numeral without leading zeros. */
  lemma {:induction false} DigitsCanonical(s: seq<byte>)
    requires AllDigits(s) && s != [] && (s[0] != 48 || |s| == 1)
    ensures s == Digits(Value(s))
    decreases |s|
  {
    if |s| > 1 {
      var init := s[..|s| - 1];
      DigitsCanonical(init);
      LeadingDigit(init);
      assert s == init + [s[|s| - 1]];
    } else {
      assert Value(s[..0]) == 0;
    }
  }

  lemma {:induction false} LeadingDigit(s: seq<byte>)
    requires AllDigits(s) && s != [] && s[0] != 48
    ensures Value(s) > 0
    decreases |s|
  {
    if |s| > 1 {
      LeadingDigit(s[..|s| - 1]);
    }
  }

  lemma {:induction false} FewDigits(n: nat, k: nat, bound: nat)
    requires k > 0 && bound == Power10(k) && n < bound
    ensures |Digits(n)| <= k
    decreases k
  {
    if n >= 10 {
      FewDigits(n / 10, k - 1, bound / 10);
    }
  }

  function Power10(k: nat): nat {
    if k == 0 then 1 else 10 * Power10(k - 1)
  }

  /** Where the run of digits starting at `i` ends. */
  function RunEnd(s: seq<byte>, i: nat): (j: nat)
    requires i <= |s|
    ensures i <= j <= |s| && AllDigits(s[i..j]) && (j < |s| ==> !IsDigit(s[j]))
    decreases |s| - i
  {
    if i < |s| && IsDigit(s[i]) then RunEnd(s, i + 1) else i
  }

  lemma {:induction false} RunEndIs(s: seq<byte>, i: nat, j: nat)
    requires i <= j <= |s| && AllDigits(s[i..j]) && (j < |s| ==> !IsDigit(s[j]))
    ensures RunEnd(s, i) == j
    decreases j - i
  {
    if i < j {
      assert s[i..j][0] == s[i];
      assert s[i + 1..j] == s[i..j][1..];
      RunEndIs(s, i + 1, j);
    }
  }

  /** The number read at `i`: the value of the run of digits there. */
  function NumberAt(s: seq<byte>, i: nat): nat
    requires i <= |s|
  {
    Value(s[i..RunEnd(s, i)])
  }

  /** A numeral followed by a non-digit reads back as the number. */
  lemma {:induction false} ReadsNumber(s: seq<byte>, i: nat, n: nat)
    requires i + |Digits(n)| < |s| && s[i..i + |Digits(n)|] == Digits(n) && !IsDigit(s[i + |Digits(n)|])
    ensures RunEnd(s, i) == i + |Digits(n)| && NumberAt(s, i) == n
  {
    RunEndIs(s, i, i + |Digits(n)|);
    DigitsDenote(n);
  }

  // ---------------------------------------------------------------- digit loops

  /** The digits of `n` from the last to the first. */
  function Reverse(s: seq<byte>): (r: seq<byte>)
    ensures |r| == |s| && forall k | 0 <= k < |s| :: r[k] == s[|s| - 1 - k]
  {
    if s == [] then [] else Reverse(s[1..]) + [s[0]]
  }

  /** Extract the digits of `n`, last first; `count` is how many. */
  method ExtractDigits(a: array<byte>, n: nat) returns (count: nat)
    requires n > 0 && |Digits(n)| <= a.Length
    modifies a
    ensures count == |Digits(n)| && a[..count] == Reverse(Digits(n))
  {
    count := 0;
    var rest := n;
    ghost var ds := Digits(n);
    while rest > 0
      invariant 0 <= rest && count <= |ds| && (rest == 0 <==> count == |ds|)
      invariant rest > 0 ==> ds[..|ds| - count] == Digits(rest)
      invariant forall k | 0 <= k < count :: a[k] == ds[|ds| - 1 - k]
      decreases rest
    {
      LastDigit(rest);
      assert Digits(rest)[|Digits(rest)| - 1] == ds[|ds| - 1 - count];
      a[count] := 48 + rest % 10;
      if rest >= 10 {
        assert Digits(rest / 10) == ds[..|ds| - count][..|ds| - count - 1] == ds[..|ds| - count - 1];
      }
      rest := rest / 10;
      count := count + 1;
    }
    assert a[..count] == Reverse(ds);
  }

  lemma LastDigit(n: nat)
    ensures var s := Digits(n);
            && s[|s| - 1] == 48 + n % 10
            && (if n < 10 then |s| == 1 else s[..|s| - 1] == Digits(n / 10))
  {}

  /** The in-place reversal of the first `n` bytes. */
  method ReverseInPlace(a: array<byte>, n: nat)
    requires n <= a.Length
    modifies a
    ensures a[..n] == Reverse(old(a[..n])) && a[n..] == old(a[n..])
  {
    for i := 0 to n / 2
      invariant forall k | 0 <= k < i :: a[k] == old(a[n - 1 - k]) && a[n - 1 - k] == old(a[k])
      invariant forall k | i <= k < n - i :: a[k] == old(a[k])
      invariant a[n..] == old(a[n..])
    {
      var tmp := a[i];
      a[i] := a[n - 1 - i];
      a[n - 1 - i] := tmp;
    }
  }

  /** `write_decimal_u8`: the numeral is stored at `at`. */
  method WriteU8(a: array<byte>, at: nat, value: nat) returns (len: nat)
    requires value < 256 && at + |Digits(value)| <= a.Length
    modifies a
    ensures len == |Digits(value)| && a[..] == Splice(old(a[..]), at, Digits(value))
  {
    U8Digits(value);
    if value >= 100 {
      a[at] := 48 + value / 100;
      a[at + 1] := 48 + value % 100 / 10;
      a[at + 2] := 48 + value % 100 % 10;
      len := 3;
    } else if value >= 10 {
      a[at] := 48 + value / 10;
      a[at + 1] := 48 + value % 10;
      len := 2;
    } else {
      a[at] := 48 + value;
      len := 1;
    }
  }

  lemma {:induction false} U8Digits(v: nat)
    requires v < 256
    ensures Digits(v) == if v >= 100 then [48 + v / 100, 48 + v % 100 / 10, 48 + v % 100 % 10]
                         else if v >= 10 then [48 + v / 10, 48 + v % 10] else [48 + v]
  {
    if v >= 100 {
      assert Digits(v / 10) == [48 + v / 100] + [48 + v / 10 % 10];
      assert v / 10 % 10 == v % 100 / 10 && v % 10 == v % 100 % 10;
    }
  }

  /** `write_decimal_size`, whose digit buffer holds four digits. */
  method WriteSize(a: array<byte>, at: nat, value: nat) returns (len: nat)
    requires value < 10000 && at + |Digits(value)| <= a.Length
    modifies a
    ensures len == |Digits(value)| && a[..] == Splice(old(a[..]), at, Digits(value))
  {
    len := 0;
    ghost var m, ds := a[..], Digits(value);
    if value == 0 {
      a[at] := 48;
      assert a[..] == Splice(m, at, [48]);
      return 1;
    }
    FewDigits(value, 4, Power10(4));
    var digits := new byte[4];
    var n := ExtractDigits(digits, value);
    SpliceNone(m, at, ds);
    while n > 0
      invariant 0 <= n && len + n == |ds| && digits[..|ds|] == Reverse(ds)
      invariant a[..] == Splice(m, at, ds[..len])
    {
      n := n - 1;
      assert digits[n] == digits[..|ds|][n] == ds[len];
      SpliceNext(m, at, ds, len);
      a[at + len] := digits[n];
      len := len + 1;
    }
    SpliceAll(m, at, ds);
  }
}
