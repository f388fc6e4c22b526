/** One token of the structure block: how both walkers read it, and how it is written. */
module FdtTokens {
  import opened Bytes
  import opened Fdt

  datatype Token =
    | Begin(name: seq<byte>)
    | End
    | Prop(nameoff: nat, value: seq<byte>)
    | Nop
    | Fin

  /** The result of reading at a position: a token and where the next one starts, or nothing readable. */
  datatype Lexed = Stop | Tok(t: Token, next: nat)

  /** A block a walker may be pointed at: 4-aligned position, memory readable up to the last whole word. */
  ghost predicate Readable(s: seq<byte>, pos: nat, end: nat) {
    pos % 4 == 0 && end < U32 && AlignUp(end) <= |s|
  }

  /** Length of the string at `pos`, at most up to `end`. */
  function NulAt(s: seq<byte>, pos: nat, end: nat): (n: nat)
    requires pos <= end <= |s|
    ensures pos + n <= end && (forall j | pos <= j < pos + n :: s[j] != 0) && (pos + n < end ==> s[pos + n] == 0)
    decreases end - pos
  {
    if pos == end || s[pos] == 0 then 0 else 1 + NulAt(s, pos + 1, end)
  }

  /** The rest of a begin-node token: the name, to its terminating zero and the padding behind it. */
  function NextBegin(s: seq<byte>, p: nat, end: nat): (r: Lexed)
    requires p % 4 == 0 && end <= |s|
    ensures r.Tok? ==> p < r.next <= end && r.next % 4 == 0
  {
    if p >= end then Stop else
    var n := NulAt(s, p, end);
    AlignedSum(p, AlignUp(n + 1));
    if p + n >= end || p + AlignUp(n + 1) > end then Stop else Tok(Begin(s[p..p + n]), p + AlignUp(n + 1))
  }

  /** The rest of a property token: length, name offset, and the padded value. */
  function NextProp(s: seq<byte>, p: nat, end: nat): (r: Lexed)
    requires p % 4 == 0 && end <= |s|
    ensures r.Tok? ==> p < r.next <= end && r.next % 4 == 0
  {
    if p + 8 > end then Stop else
    var len := Be32(s[p..p + 4]);
    var d := p + 8;
    AlignedSum(p, 8);
    AlignedSum(d, AlignUp(len));
    if d + len > end || d + AlignUp(len) > end then Stop
    else Tok(Prop(Be32(s[p + 4..p + 8]), s[d..d + len]), d + AlignUp(len))
  }

  /** Read one token. Nothing is read at or past `end` except the tail of a token word that starts before. */
  function Next(s: seq<byte>, pos: nat, end: nat): (r: Lexed)
    requires Readable(s, pos, end)
    ensures r.Tok? ==> pos < r.next <= AlignUp(end) && r.next % 4 == 0
  {
    if pos >= end then Stop else
    var token := Be32(s[pos..pos + 4]);
    if token == BEGIN_NODE then NextBegin(s, pos + 4, end)
    else if token == END_NODE then Tok(End, pos + 4)
    else if token == PROP then NextProp(s, pos + 4, end)
    else if token == NOP then Tok(Nop, pos + 4)
    else if token == FIN then Tok(Fin, pos + 4)
    else Stop
  }

  /** Two memories agree on the block that ends at `end`. */
  ghost predicate SameBlock(s: seq<byte>, s': seq<byte>, end: nat) {
    end % 4 == 0 && end <= |s| && end <= |s'| && s[..end] == s'[..end]
  }

  lemma {:induction false} SameBegin(s: seq<byte>, s': seq<byte>, p: nat, end: nat)
    requires SameBlock(s, s', end) && p % 4 == 0
    ensures NextBegin(s', p, end) == NextBegin(s, p, end)
  {
    if p < end {
      SameName(s, s', p, end);
      SameSlice(s, s', end, p, p + NulAt(s, p, end));
    }
  }

  lemma {:induction false} SameProp(s: seq<byte>, s': seq<byte>, p: nat, end: nat)
    requires SameBlock(s, s', end) && p % 4 == 0
    ensures NextProp(s', p, end) == NextProp(s, p, end)
  {
    if p + 8 <= end {
      SameSlice(s, s', end, p, p + 4);
      SameSlice(s, s', end, p + 4, p + 8);
      var len := Be32(s[p..p + 4]);
      if p + 8 + len <= end { SameSlice(s, s', end, p + 8, p + 8 + len); }
    }
  }

  /** In a block of whole words, what is read depends on nothing outside the block. */
  lemma {:induction false} ReadsInsideBlock(s: seq<byte>, s': seq<byte>, pos: nat, end: nat)
    requires SameBlock(s, s', end) && Readable(s, pos, end)
    ensures Next(s', pos, end) == Next(s, pos, end)
    ensures Next(s, pos, end).Tok? ==> Next(s, pos, end).next <= end
  {
    hide NextBegin, NextProp;
    if pos < end {
      SameSlice(s, s', end, pos, pos + 4);
      SameBegin(s, s', pos + 4, end);
      SameProp(s, s', pos + 4, end);
    }
  }

  lemma {:induction false} SameSlice(s: seq<byte>, s': seq<byte>, end: nat, lo: nat, hi: nat)
    requires lo <= hi <= end <= |s| && end <= |s'| && s[..end] == s'[..end]
    ensures s[lo..hi] == s'[lo..hi]
  {
    assert s[lo..hi] == s[..end][lo..hi] && s'[lo..hi] == s'[..end][lo..hi];
  }

  lemma {:induction false} SameName(s: seq<byte>, s': seq<byte>, pos: nat, end: nat)
    requires pos <= end <= |s| && end <= |s'| && s[..end] == s'[..end]
    ensures NulAt(s, pos, end) == NulAt(s', pos, end)
    decreases end - pos
  {
    if pos < end {
      assert s[pos] == s[..end][pos] == s'[..end][pos] == s'[pos];
      SameName(s, s', pos + 1, end);
    }
  }

  // ---------------------------------------------------------------- writing

  function PutBe32(w: nat): (b: seq<byte>)
    requires w < U32
    ensures |b| == 4 && Be32(b) == w
  {
    [w / 0x100 / 0x100 / 0x100, w / 0x100 / 0x100 % 0x100, w / 0x100 % 0x100, w % 0x100]
  }

  function Zeros(n: nat): (b: seq<byte>)
    ensures |b| == n
  {
    seq(n, _ => 0)
  }

  /** `v` followed by the padding that ends it on a word boundary. */
  function Padded(v: seq<byte>): (b: seq<byte>)
    ensures |b| == AlignUp(|v|)
  {
    v + Zeros(AlignUp(|v|) - |v|)
  }

  predicate Writable(t: Token) {
    match t
    case Begin(name) => 0 !in name
    case Prop(nameoff, value) => nameoff < U32 && |value| < U32
    case _ => true
  }

  /** The bytes of a token (section 5.4.1 of the Devicetree Specification v0.4). */
  function Encode(t: Token): (b: seq<byte>)
    requires Writable(t)
    ensures |b| >= 4 && |b| % 4 == 0
  {
    match t
    case Begin(name) => [0, 0, 0, 1] + Padded(name + [0])
    case End => [0, 0, 0, 2]
    case Prop(nameoff, value) => [0, 0, 0, 3] + PutBe32(|value|) + PutBe32(nameoff) + Padded(value)
    case Nop => [0, 0, 0, 4]
    case Fin => [0, 0, 0, 9]
  }

  /** The bytes at `pos` are `b`. */
  ghost predicate At(s: seq<byte>, pos: nat, b: seq<byte>) {
    pos + |b| <= |s| && s[pos..pos + |b|] == b
  }

  lemma {:induction false} AtSplit(s: seq<byte>, pos: nat, a: seq<byte>, b: seq<byte>)
    requires At(s, pos, a + b)
    ensures At(s, pos, a) && At(s, pos + |a|, b)
  {
    var m := s[pos..pos + |a| + |b|];
    assert m == a + b;
    assert s[pos..pos + |a|] == m[..|a|];
    assert s[pos + |a|..pos + |a| + |b|] == m[|a|..];
  }

  lemma {:induction false} NulUnique(s: seq<byte>, pos: nat, end: nat, n: nat)
    requires pos + n < end <= |s| && s[pos + n] == 0 && forall j | pos <= j < pos + n :: s[j] != 0
    ensures NulAt(s, pos, end) == n
    decreases n
  {
    if n > 0 {
      NulUnique(s, pos + 1, end, n - 1);
    }
  }

  lemma {:induction false} NameRead(s: seq<byte>, pos: nat, end: nat, name: seq<byte>)
    requires pos + |name| < end <= |s| && 0 !in name && At(s, pos, name + [0])
    ensures NulAt(s, pos, end) == |name| && s[pos..pos + |name|] == name
  {
    AtSplit(s, pos, name, [0]);
    assert s[pos + |name|] == s[pos + |name|..pos + |name| + 1][0] == 0;
    forall j | pos <= j < pos + |name|
      ensures s[j] != 0
    {
      assert s[j] == s[pos..pos + |name|][j - pos] == name[j - pos];
    }
    NulUnique(s, pos, end, |name|);
  }

  /** What was written is read back, and reading stops right behind it. */
  lemma {:induction false} ReadsBackBegin(s: seq<byte>, pos: nat, end: nat, name: seq<byte>)
    requires Readable(s, pos, end) && 0 !in name
    requires pos + |Encode(Begin(name))| <= end && At(s, pos, Encode(Begin(name)))
    ensures Next(s, pos, end) == Tok(Begin(name), pos + |Encode(Begin(name))|)
  {
    AtSplit(s, pos, [0, 0, 0, 1], Padded(name + [0]));
    AtSplit(s, pos + 4, name + [0], Zeros(AlignUp(|name| + 1) - (|name| + 1)));
    NameRead(s, pos + 4, end, name);
  }

  lemma {:induction false} ReadsBackProp(s: seq<byte>, pos: nat, end: nat, off: nat, value: seq<byte>)
    requires Readable(s, pos, end) && off < U32 && |value| < U32
    requires pos + |Encode(Prop(off, value))| <= end && At(s, pos, Encode(Prop(off, value)))
    ensures Next(s, pos, end) == Tok(Prop(off, value), pos + |Encode(Prop(off, value))|)
  {
    var head := [0, 0, 0, 3] + PutBe32(|value|) + PutBe32(off);
    AtSplit(s, pos, head, Padded(value));
    AtSplit(s, pos, [0, 0, 0, 3] + PutBe32(|value|), PutBe32(off));
    AtSplit(s, pos, [0, 0, 0, 3], PutBe32(|value|));
    AtSplit(s, pos + 12, value, Zeros(AlignUp(|value|) - |value|));
  }

  lemma {:induction false} ReadsBack(s: seq<byte>, pos: nat, end: nat, t: Token)
    requires Readable(s, pos, end) && Writable(t) && pos + |Encode(t)| <= end && At(s, pos, Encode(t))
    ensures Next(s, pos, end) == Tok(t, pos + |Encode(t)|)
  {
    match t {
      case Begin(name) => ReadsBackBegin(s, pos, end, name);
      case Prop(off, value) => ReadsBackProp(s, pos, end, off, value);
      case _ =>
    }
  }

  function EncodeAll(ts: seq<Token>): (b: seq<byte>)
    requires forall t | t in ts :: Writable(t)
    ensures |b| % 4 == 0
  {
    if ts == [] then [] else
      var first, rest := Encode(ts[0]), EncodeAll(ts[1..]);
      AlignedSum(|first|, |rest|);
      first + rest
  }
}
