/** The two public functions of the device tree parser as loops over the blob in memory. */
module FdtParser {
  import opened Bytes
  import opened Fdt
  import opened FdtTokens
  import opened FdtWalk
  import opened Wrappers
  import B = FdtBootargs
  import D = FdtDevices

  const HEADER: nat := 40

  /** A header field of the blob. */
  function Field(s: seq<byte>, at: nat): nat
    requires at + 4 <= |s|
  {
    Be32(s[at..at + 4])
  }

  /** Memory holding a blob: a whole header, and if the magic number is right, a 4-aligned structure offset
      and memory up to the end of the last word of the blob. */
  ghost predicate InMemory(s: seq<byte>) {
    && |s| >= HEADER
    && (Field(s, 0) == MAGIC ==>
          && Field(s, 8) % 4 == 0 && AlignUp(Field(s, 4)) <= |s|)
  }

  /** The end of the structure block does not wrap. */
  ghost predicate EndsInMemory(s: seq<byte>) {
    InMemory(s) && (Field(s, 0) == MAGIC ==> Field(s, 8) + Field(s, 36) < U32)
  }

  /** Offsets and sizes that stay inside the blob. */
  predicate Valid(s: seq<byte>)
    requires |s| >= HEADER
  {
    Field(s, 0) == MAGIC && Field(s, 8) <= Field(s, 4) && Field(s, 12) <= Field(s, 4)
    && Field(s, 8) + Field(s, 36) <= Field(s, 4)
  }

  /** The names the blob's strings block gives to name offsets. */
  function NamesOf(s: seq<byte>): Names
    requires |s| >= HEADER
  {
    (off: nat) => KindAt(s, Field(s, 12) + off)
  }

  /** Where the enumeration of a valid blob ends up. */
  function Enumeration(s: seq<byte>): Walked<D.Scan>
    requires |s| >= HEADER && Readable(s, StructAt(s), StructEnd(s))
  {
    Walk(s, StructAt(s), StructEnd(s), D.Step(NamesOf(s)), D.START)
  }

  function StructAt(s: seq<byte>): nat {
    if |s| < HEADER then 0 else Field(s, 8)
  }

  function StructEnd(s: seq<byte>): nat {
    if |s| < HEADER then 0 else Field(s, 8) + Field(s, 36)
  }

  lemma AlignUpMonotone(a: nat, b: nat)
    requires a <= b
    ensures AlignUp(a) <= AlignUp(b)
  {}

  lemma {:induction false} ValidIsReadable(s: seq<byte>)
    requires EndsInMemory(s) && Valid(s)
    ensures Readable(s, StructAt(s), StructEnd(s))
  {
    AlignUpMonotone(StructEnd(s), Field(s, 4));
  }

  /** A word read through a pointer and swapped. */
  method ReadWord(fdt: array<byte>, at: nat) returns (w: nat)
    requires at + 4 <= fdt.Length
    ensures w == Field(fdt[..], at)
  {
    SwapsToBigEndian(fdt[at..at + 4]);
    w := Be32ToCpu(LoadLe(fdt[at..at + 4]));
  }

  /** The loop that looks for the end of a node name. */
  method NameLength(fdt: array<byte>, p: nat, end: nat) returns (n: nat)
    requires p <= end <= fdt.Length
    ensures n == NulAt(fdt[..], p, end)
  {
    n := 0;
    while n < end - p && fdt[p + n] != 0
      invariant p + n <= end && NulAt(fdt[..], p, end) == n + NulAt(fdt[..], p + n, end)
    {
      n := n + 1;
    }
  }

  /** One token at `pos`, with the checks both walkers make before each access. */
  method NextToken(fdt: array<byte>, pos: nat, end: nat) returns (r: Lexed)
    requires Readable(fdt[..], pos, end)
    ensures r == Next(fdt[..], pos, end)
  {
    hide AlignUpC, Be32;
    if pos >= end { return Stop; }
    var token := ReadWord(fdt, pos);
    var p := pos + 4;
    if token == BEGIN_NODE {
      if p >= end { return Stop; }
      var n := NameLength(fdt, p, end);
      if n >= end - p { return Stop; }
      AlignUpMeaning(n + 1);
      if p + AlignUpC(n + 1) > end { return Stop; }
      r := Tok(Begin(fdt[p..p + n]), p + AlignUpC(n + 1));
    } else if token == END_NODE {
      r := Tok(End, p);
    } else if token == PROP {
      if p + 8 > end { return Stop; }
      var len := ReadWord(fdt, p);
      var off := ReadWord(fdt, p + 4);
      if p + 8 + len > end { return Stop; }
      AlignUpMeaning(len);
      if p + 8 + AlignUpC(len) > end { return Stop; }
      r := Tok(Prop(off, fdt[p + 8..p + 8 + len]), p + 8 + AlignUpC(len));
    } else if token == NOP {
      r := Tok(Nop, p);
    } else if token == FIN {
      r := Tok(Fin, p);
    } else {
      r := Stop;
    }
  }

  /** A 64-bit value from two unaligned 32-bit reads. */
  function Cells(b: seq<byte>): nat
    requires |b| == 8
  {
    ReadBe32Unaligned(b[..4]) * 0x1_0000_0000 + ReadBe32Unaligned(b[4..])
  }

  lemma {:induction false} CellsAreBe64(b: seq<byte>)
    requires |b| == 8
    ensures Cells(b) == D.Be64(b)
  {
    ReadsBigEndian(b[..4]);
    ReadsBigEndian(b[4..]);
  }

  /** The properties the enumeration is interested in. */
  method TakeProperty(c: D.Candidate, kind: Kind, value: seq<byte>) returns (r: D.Candidate)
    ensures r == D.WithProp(c, kind, value)
  {
    r := c;
    if kind == Reg {
      if |value| >= 16 {
        CellsAreBe64(value[..8]);
        CellsAreBe64(value[8..16]);
        r := r.(dev := r.dev.(regBase := Cells(value[..8]), regSize := Cells(value[8..16])), hasReg := true);
      }
    } else if kind == Compatible {
      if |value| > 0 {
        r := r.(dev := r.dev.(compatible := value), hasCompatible := true);
      }
    }
  }

  /** `fdt_enumerate_devices`: -1 for a null address, a wrong magic number or offsets outside the blob;
      otherwise the callbacks of the walk, and their number. */
  method EnumerateDevices(fdt: array?<byte>, callback: bool) returns (count: int, calls: seq<D.Device>)
    requires fdt != null ==> EndsInMemory(fdt[..])
    ensures fdt == null || !Valid(fdt[..]) ==> count == -1 && calls == []
    ensures fdt != null && Valid(fdt[..]) ==>
              Readable(fdt[..], StructAt(fdt[..]), StructEnd(fdt[..])) && count == |calls|
              && calls == if callback then Enumeration(fdt[..]).state.calls else []
  {
    calls := [];
    if fdt == null { return -1, []; }
    var ok, pos, end, strings := ReadHeader(fdt);
    if !ok { return -1, []; }
    ValidIsReadable(fdt[..]);
    count, calls := WalkDevices(fdt, pos, end, strings, callback);
  }

  /** Magic number, total size, structure offset, strings offset, structure size. */
  method ReadFields(fdt: array<byte>) returns (magic: nat, total: nat, pos: nat, strings: nat, size: nat)
    requires fdt.Length >= HEADER
    ensures magic == Field(fdt[..], 0) && total == Field(fdt[..], 4) && pos == Field(fdt[..], 8)
    ensures strings == Field(fdt[..], 12) && size == Field(fdt[..], 36)
  {
    magic := ReadWord(fdt, 0);
    pos := ReadWord(fdt, 8);
    strings := ReadWord(fdt, 12);
    total := ReadWord(fdt, 4);
    size := ReadWord(fdt, 36);
  }

  /** The header checks of the enumeration. */
  method ReadHeader(fdt: array<byte>) returns (ok: bool, pos: nat, end: nat, strings: nat)
    requires EndsInMemory(fdt[..])
    ensures ok == Valid(fdt[..])
    ensures ok ==> pos == StructAt(fdt[..]) && end == StructEnd(fdt[..]) && strings == Field(fdt[..], 12)
  {
    hide Field;
    var magic, total, size;
    magic, total, pos, strings, size := ReadFields(fdt);
    ok := magic == MAGIC && pos <= total && strings <= total && (pos + size) % U32 <= total;
    end := pos + size;
  }

  /** What the enumeration does with one token; `report` is the device to call back with, if any. */
  method DeviceTurn(fdt: array<byte>, strings: nat, cur: D.Candidate, depth: int, t: Token,
                    ghost calls: seq<D.Device>)
    returns (cur': D.Candidate, depth': int, report: seq<D.Device>)
    requires fdt.Length >= HEADER && strings == Field(fdt[..], 12)
    ensures D.Step(NamesOf(fdt[..]))(D.Scan(cur, depth, calls), t) == D.Scan(cur', depth', calls + report)
  {
    cur', depth', report := cur, depth, [];
    match t {
      case Begin(name) => cur', depth' := D.Fresh(name, depth), depth + 1;
      case End =>
        if cur.hasReg && cur.hasCompatible { report := [cur.dev]; }
        assert report == D.Report(cur);
        depth' := depth - 1;
      case Prop(off, value) => cur' := TakeProperty(cur, KindAt(fdt[..], strings + off), value);
      case _ =>
    }
    assert calls + [] == calls;
  }

  /** The enumeration loop. */
  method WalkDevices(fdt: array<byte>, start: nat, end: nat, strings: nat, callback: bool)
    returns (count: int, calls: seq<D.Device>)
    requires fdt.Length >= HEADER && Readable(fdt[..], start, end) && strings == Field(fdt[..], 12)
    ensures count == |calls|
    ensures calls == if callback then Walk(fdt[..], start, end, D.Step(NamesOf(fdt[..])), D.START).state.calls else []
  {
    ghost var step := D.Step(NamesOf(fdt[..]));
    ghost var result := Walk(fdt[..], start, end, step, D.START);
    var pos := start;
    var depth := 0;
    var cur := D.START.cur;
    ghost var all := [];
    count, calls := 0, [];
    while true
      invariant Readable(fdt[..], pos, end)
      invariant result == Walk(fdt[..], pos, end, step, D.Scan(cur, depth, all))
      invariant count == |calls| && calls == if callback then all else []
      decreases fdt.Length - pos
    {
      WalksOn(fdt[..], pos, end, step, D.Scan(cur, depth, all));
      var r := NextToken(fdt, pos, end);
      if r.Stop? || r.t.Fin? { return; }
      var report;
      cur, depth, report := DeviceTurn(fdt, strings, cur, depth, r.t, all);
      all := all + report;
      if callback {
        calls := calls + report;
        count := count + |report|;
      }
      pos := r.next;
    }
  }

  /** `fdt_get_bootargs`: nothing for a null address, a wrong magic number or a walk that does not reach the
      end token; otherwise what the walk found. */
  method GetBootargs(fdt: array?<byte>) returns (bootargs: Option<seq<byte>>)
    requires fdt != null ==> InMemory(fdt[..])
    ensures fdt == null || Field(fdt[..], 0) != MAGIC ==> bootargs == None
    ensures fdt != null && Field(fdt[..], 0) == MAGIC ==>
              Readable(fdt[..], StructAt(fdt[..]), Field(fdt[..], 4)) && bootargs == FoundArgs(fdt[..])
  {
    if fdt == null { return None; }
    var magic := ReadWord(fdt, 0);
    if magic != MAGIC { return None; }
    var pos := ReadWord(fdt, 8);
    var strings := ReadWord(fdt, 12);
    var end := ReadWord(fdt, 4);
    bootargs := WalkBootargs(fdt, pos, end, strings);
  }

  /** What the walk for boot arguments returns. */
  function FoundArgs(s: seq<byte>): Option<seq<byte>>
    requires |s| >= HEADER && Readable(s, StructAt(s), Field(s, 4))
  {
    var w := Walk(s, StructAt(s), Field(s, 4), B.Step(NamesOf(s)), B.START);
    if w.finished then w.state.bootargs else None
  }

  /** What the search for boot arguments does with one token. */
  method BootTurn(fdt: array<byte>, strings: nat, st: B.Boot, t: Token) returns (st': B.Boot)
    requires fdt.Length >= HEADER && strings == Field(fdt[..], 12)
    ensures st' == B.Step(NamesOf(fdt[..]))(st, t)
  {
    var depth, inChosen, bootargs := st.depth, st.inChosen, st.bootargs;
    match t {
      case Begin(name) =>
        if depth == 1 && name == CHOSEN_NAME { inChosen := true; }
        depth := depth + 1;
      case End =>
        depth := depth - 1;
        if depth == 1 && inChosen { inChosen := false; }
      case Prop(off, value) =>
        if inChosen && KindAt(fdt[..], strings + off) == Bootargs {
          if |value| > 0 { bootargs := Some(value); }
        }
      case _ =>
    }
    st' := B.Boot(depth, inChosen, bootargs);
  }

  /** The loop that looks for boot arguments. */
  method WalkBootargs(fdt: array<byte>, start: nat, end: nat, strings: nat) returns (r: Option<seq<byte>>)
    requires fdt.Length >= HEADER && Readable(fdt[..], start, end) && strings == Field(fdt[..], 12)
    ensures var w := Walk(fdt[..], start, end, B.Step(NamesOf(fdt[..])), B.START);
            r == if w.finished then w.state.bootargs else None
  {
    ghost var step := B.Step(NamesOf(fdt[..]));
    ghost var result := Walk(fdt[..], start, end, step, B.START);
    var pos := start;
    var st := B.START;
    while true
      invariant Readable(fdt[..], pos, end)
      invariant result == Walk(fdt[..], pos, end, step, st)
      decreases fdt.Length - pos
    {
      WalksOn(fdt[..], pos, end, step, st);
      var lexed := NextToken(fdt, pos, end);
      if lexed.Stop? { return None; }
      if lexed.t.Fin? { return st.bootargs; }
      st := BootTurn(fdt, strings, st, lexed.t);
      pos := lexed.next;
    }
  }

  /** A blob (section 5.2 of the Devicetree Specification v0.4): the header's magic number and four of its fields, and at
      `off` a structure block of `size` bytes that is a flattening of `root`. */
  ghost predicate Blob(s: seq<byte>, total: nat, off: nat, strings: nat, size: nat, before: nat, root: Node, after: nat) {
    && HeaderIs(s, [0xd0, 0x0d, 0xfe, 0xed], total, off, strings, size)
    && strings <= total && off + size <= total && off % 4 == 0 && AlignUp(total) <= |s|
    && Flattened(s, off, off + size, before, root, after)
  }

  ghost predicate HeaderIs(s: seq<byte>, magic: seq<byte>, total: nat, off: nat, strings: nat, size: nat) {
    && |s| >= 40 && total < U32 && off < U32 && strings < U32 && size < U32
    && s[..4] == magic && s[4..8] == PutBe32(total) && s[8..12] == PutBe32(off) && s[12..16] == PutBe32(strings)
    && s[36..40] == PutBe32(size)
  }

  /** The headers the enumeration accepts. */
  lemma {:induction false} ValidIff(s: seq<byte>, magic: seq<byte>, total: nat, off: nat, strings: nat, size: nat)
    requires |magic| == 4 && HeaderIs(s, magic, total, off, strings, size)
    ensures Valid(s) <==> magic == [0xd0, 0x0d, 0xfe, 0xed] && off <= total && strings <= total && off + size <= total
    ensures StructAt(s) == off && StructEnd(s) == off + size && Field(s, 4) == total && Field(s, 12) == strings
  {
    MagicIs(magic);
    assert s[0..4] == magic;
    hide Be32, PutBe32;
  }

  lemma MagicIs(b: seq<byte>)
    requires |b| == 4
    ensures Be32(b) == 0xd00d_feed <==> b == [0xd0, 0x0d, 0xfe, 0xed]
  {
    if Be32(b) == 0xd00d_feed {
      assert b == PutBe32(0xd00d_feed) by { BytesOf(b); }
    }
  }

  lemma {:induction false} BytesOf(b: seq<byte>)
    requires |b| == 4
    ensures PutBe32(Be32(b)) == b
  {
    var w := Be32(b);
    assert w / 0x100 == 0x1_0000 * (b[0] as int) + 0x100 * (b[1] as int) + (b[2] as int) && w % 0x100 == b[3];
    assert w / 0x100 / 0x100 == 0x100 * (b[0] as int) + (b[1] as int) && w / 0x100 % 0x100 == b[2];
  }

  /** Nothing is found in a block that has no end token, whatever its properties say. */
  lemma {:induction false} OpenBlockFindsNothing(s: seq<byte>, ts: seq<Token>)
    requires |s| >= HEADER && Readable(s, StructAt(s), Field(s, 4)) && Inner(ts)
    requires StructAt(s) + |EncodeAll(ts)| == Field(s, 4) && At(s, StructAt(s), EncodeAll(ts))
    ensures FoundArgs(s) == None
  {
    hide At, EncodeAll, Field, NamesOf;
    WalksOpenBlock(s, StructAt(s), Field(s, 4), B.Step(NamesOf(s)), B.START, ts);
  }

  lemma {:induction false} BlobIsValid(
    s: seq<byte>, total: nat, off: nat, strings: nat, size: nat, before: nat, root: Node, after: nat)
    requires Blob(s, total, off, strings, size, before, root, after)
    ensures |s| >= HEADER && Valid(s) && EndsInMemory(s) && Field(s, 12) == strings && Field(s, 4) == total
    ensures StructAt(s) == off && StructEnd(s) == off + size
    ensures Flattened(s, off, off + size, before, root, after) && Flattened(s, off, total, before, root, after)
    ensures Readable(s, off, off + size) && Readable(s, off, total)
  {
    ValidIff(s, s[..4], total, off, strings, size);
    hide Field;
  }

  lemma {:induction false} NamesAgree(s: seq<byte>, strings: nat, names: Names)
    requires |s| >= HEADER && Field(s, 12) == strings && Means(s, strings, names)
    ensures forall k :: NamesOf(s)(k) == names(k)
  {
    MeaningUnique(s, strings, names);
    hide Means, KindAt, Field;
  }

  /** On the flattening of a tree, the enumeration makes the callbacks of the tree and the search finds the tree's boot
      arguments, where names are what the strings block spells. */
  lemma {:induction false} BothWalkTrees(s: seq<byte>, total: nat, off: nat, strings: nat, size: nat,
                                         before: nat, root: Node, after: nat, names: Names)
    requires Blob(s, total, off, strings, size, before, root, after) && Means(s, strings, names)
    ensures Valid(s) && EndsInMemory(s)
    ensures Readable(s, StructAt(s), StructEnd(s)) && Enumeration(s).state.calls == D.Calls(names, root, 0)
    ensures Readable(s, StructAt(s), Field(s, 4)) && FoundArgs(s) == B.Last(B.ChosenArgs(names, root.kids), None)
  {
    hide Means, NamesOf, Blob, Field, Valid, EndsInMemory, Flattened, Readable, Walk;
    BlobIsValid(s, total, off, strings, size, before, root, after);
    NamesAgree(s, strings, names);
    CallsOfTree(s, off, off + size, before, root, after, names);
    ArgsOfTree(s, off, total, before, root, after, names);
  }

  lemma {:induction false} CallsOfTree(
    s: seq<byte>, pos: nat, end: nat, before: nat, root: Node, after: nat, names: Names)
    requires |s| >= HEADER && Flattened(s, pos, end, before, root, after) && forall k :: NamesOf(s)(k) == names(k)
    ensures Walk(s, pos, end, D.Step(NamesOf(s)), D.START).state.calls == D.Calls(names, root, 0)
  {
    D.EnumeratesTree(NamesOf(s), s, pos, end, before, root, after);
    D.SameCalls(NamesOf(s), names, root, 0);
  }

  lemma {:induction false} ArgsOfTree(
    s: seq<byte>, pos: nat, end: nat, before: nat, root: Node, after: nat, names: Names)
    requires |s| >= HEADER && Flattened(s, pos, end, before, root, after) && forall k :: NamesOf(s)(k) == names(k)
    ensures var w := Walk(s, pos, end, B.Step(NamesOf(s)), B.START);
            w.finished && w.state.bootargs == B.Last(B.ChosenArgs(names, root.kids), None)
  {
    B.FindsBootargs(NamesOf(s), s, pos, end, before, root, after);
    B.SameArgs(NamesOf(s), names, root.kids);
  }
}
