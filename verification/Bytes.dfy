/** Bytes and writes to a stretch of memory. */
module Bytes {

  type byte = x: int | 0 <= x < 256

  /** Memory `m` after `f` was written from address `a` on. */
  function Splice(m: seq<byte>, a: nat, f: seq<byte>): (r: seq<byte>)
    requires a + |f| <= |m|
    ensures |r| == |m|
  {
    m[..a] + f + m[a + |f|..]
  }

  /** Storing the next byte extends the part written. */
  lemma {:induction false} SpliceNext(m: seq<byte>, a: nat, f: seq<byte>, n: nat)
    requires n < |f| && a + |f| <= |m|
    ensures Splice(m, a, f[..n])[a + n := f[n]] == Splice(m, a, f[..n + 1])
  {}

  lemma {:induction false} SpliceNone(m: seq<byte>, a: nat, f: seq<byte>)
    requires a <= |m|
    ensures Splice(m, a, f[..0]) == m
  {}

  lemma {:induction false} SpliceAll(m: seq<byte>, a: nat, f: seq<byte>)
    requires a + |f| <= |m|
    ensures Splice(m, a, f[..|f|]) == Splice(m, a, f)
  {
    assert f[..|f|] == f;
  }

  lemma {:induction false} SpliceAt(m: seq<byte>, a: nat, f: seq<byte>, k: nat)
    requires a + |f| <= |m| && k < |m|
    ensures Splice(m, a, f)[k] == if a <= k < a + |f| then f[k - a] else m[k]
  {}

  lemma {:induction false} SpliceTwice(m: seq<byte>, a: nat, f: seq<byte>, g: seq<byte>)
    requires a + |f| + |g| <= |m|
    ensures Splice(Splice(m, a, f), a + |f|, g) == Splice(m, a, f + g)
  {}
}
