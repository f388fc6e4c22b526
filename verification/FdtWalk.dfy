/** The two walkers of the structure block, as folds over the tokens they read, and the trees whose
    flattening they are meant for. */
module FdtWalk {
  import opened Bytes
  import opened Fdt
  import opened FdtTokens

  /** The property names the walkers know. */
  datatype Kind = Reg | Compatible | Bootargs | Other

  /** Which known name the strings block holds at an offset. */
  type Names = nat -> Kind

  const REG_NAME: seq<byte> := [0x72, 0x65, 0x67]
  const COMPATIBLE_NAME: seq<byte> := [0x63, 0x6f, 0x6d, 0x70, 0x61, 0x74, 0x69, 0x62, 0x6c, 0x65]
  const BOOTARGS_NAME: seq<byte> := [0x62, 0x6f, 0x6f, 0x74, 0x61, 0x72, 0x67, 0x73]
  const CHOSEN_NAME: seq<byte> := [0x63, 0x68, 0x6f, 0x73, 0x65, 0x6e]

  /** `strcmp(s + at, lit) == 0` */
  predicate StrEqual(s: seq<byte>, at: nat, lit: seq<byte>) {
    at + |lit| < |s| && s[at..at + |lit|] == lit && s[at + |lit|] == 0
  }

  function KindAt(s: seq<byte>, at: nat): Kind {
    if StrEqual(s, at, REG_NAME) then Reg
    else if StrEqual(s, at, COMPATIBLE_NAME) then Compatible
    else if StrEqual(s, at, BOOTARGS_NAME) then Bootargs
    else Other
  }

  /** A strings block holds, at `at`, the bytes of `name` and a zero. */
  ghost predicate Spells(s: seq<byte>, at: nat, name: seq<byte>) {
    at + |name| < |s| && s[at + |name|] == 0 && forall k | 0 <= k < |name| :: s[at + k] == name[k]
  }

  /** The bytes at `at` spell the name `kind` stands for, "reg", "compatible" or "bootargs", or none of them. */
  ghost predicate NameIs(s: seq<byte>, at: nat, kind: Kind) {
    && (kind == Reg <==> Spells(s, at, [114, 101, 103]))
    && (kind == Compatible <==> Spells(s, at, [99, 111, 109, 112, 97, 116, 105, 98, 108, 101]))
    && (kind == Bootargs <==> Spells(s, at, [98, 111, 111, 116, 97, 114, 103, 115]))
  }

  /** What names mean: offsets in the strings block at `base`. */
  ghost predicate Means(s: seq<byte>, base: nat, names: Names) {
    forall off: nat :: NameIs(s, base + off, names(off))
  }

  lemma {:induction false} EqualSpells(s: seq<byte>, at: nat, lit: seq<byte>)
    ensures StrEqual(s, at, lit) <==> Spells(s, at, lit)
  {
    if at + |lit| < |s| {
      var b := s[at..at + |lit|];
      assert forall k | 0 <= k < |lit| :: b[k] == s[at + k];
    }
  }

  lemma FirstByte(s: seq<byte>, at: nat, name: seq<byte>)
    requires name != []
    ensures Spells(s, at, name) ==> at < |s| && s[at] == name[0]
  {
    if Spells(s, at, name) {
      assert s[at + 0] == name[0];
    }
  }

  /** The name the code finds is the one spelled. */
  lemma {:induction false} FindsSpelled(s: seq<byte>, at: nat, kind: Kind)
    ensures NameIs(s, at, kind) <==> kind == KindAt(s, at)
  {
    EqualSpells(s, at, REG_NAME);
    EqualSpells(s, at, COMPATIBLE_NAME);
    EqualSpells(s, at, BOOTARGS_NAME);
    FirstByte(s, at, REG_NAME);
    FirstByte(s, at, COMPATIBLE_NAME);
    FirstByte(s, at, BOOTARGS_NAME);
    hide Spells, StrEqual;
  }

  /** Every strings block gives offsets exactly one meaning. */
  lemma {:induction false} MeaningUnique(s: seq<byte>, base: nat, names: Names)
    ensures Means(s, base, names) <==> forall off: nat :: names(off) == KindAt(s, base + off)
  {
    hide NameIs, KindAt;
    forall off: nat
      ensures NameIs(s, base + off, names(off)) <==> names(off) == KindAt(s, base + off)
    {
      FindsSpelled(s, base + off, names(off));
    }
  }

  // ---------------------------------------------------------------- walking

  /** Where a walk ended: its state, and whether it got to the end token. */
  datatype Walked<S> = Walked(state: S, finished: bool)

  function Walk<S>(s: seq<byte>, pos: nat, end: nat, step: (S, Token) -> S, st: S): Walked<S>
    requires Readable(s, pos, end)
    decreases |s| - pos
  {
    match Next(s, pos, end)
    case Stop => Walked(st, false)
    case Tok(t, next) => if t.Fin? then Walked(st, true) else Walk(s, next, end, step, step(st, t))
  }

  /** One turn of the loop. */
  lemma WalksOn<S>(s: seq<byte>, pos: nat, end: nat, step: (S, Token) -> S, st: S)
    requires Readable(s, pos, end)
    ensures var r := Next(s, pos, end);
            && (r.Stop? ==> Walk(s, pos, end, step, st) == Walked(st, false))
            && (r.Tok? && r.t.Fin? ==> Walk(s, pos, end, step, st) == Walked(st, true))
            && (r.Tok? && !r.t.Fin? ==>
                  Readable(s, r.next, end) && Walk(s, pos, end, step, st) == Walk(s, r.next, end, step, step(st, r.t)))
  {}

  /** In a block of whole words, on arbitrary bytes, the walk depends on nothing outside the block. */
  lemma {:induction false} WalksInsideBlock<S>(
    s: seq<byte>, s': seq<byte>, pos: nat, end: nat, step: (S, Token) -> S, st: S)
    requires SameBlock(s, s', end) && Readable(s, pos, end)
    ensures Walk(s', pos, end, step, st) == Walk(s, pos, end, step, st)
    decreases |s| - pos
  {
    ReadsInsideBlock(s, s', pos, end);
    match Next(s, pos, end) {
      case Stop =>
      case Tok(t, next) =>
        if !t.Fin? {
          WalksInsideBlock(s, s', next, end, step, step(st, t));
        }
    }
  }

  function Fold<S>(step: (S, Token) -> S, st: S, ts: seq<Token>): S {
    if ts == [] then st else Fold(step, step(st, ts[0]), ts[1..])
  }

  lemma {:induction false} FoldAppend<S>(step: (S, Token) -> S, st: S, ts: seq<Token>, us: seq<Token>)
    ensures Fold(step, st, ts + us) == Fold(step, Fold(step, st, ts), us)
    decreases |ts|
  {
    if ts == [] {
      assert ts + us == us;
    } else {
      assert (ts + us)[1..] == ts[1..] + us;
      FoldAppend(step, step(st, ts[0]), ts[1..], us);
    }
  }

  lemma {:induction false} FoldOne<S>(step: (S, Token) -> S, st: S, t: Token)
    ensures Fold(step, st, [t]) == step(st, t)
  {
    assert [t][1..] == [];
  }

  /** Tokens a tree consists of: all but the end of the block. */
  ghost predicate Inner(ts: seq<Token>) {
    forall t | t in ts :: Writable(t) && !t.Fin?
  }

  lemma {:induction false} WalksOne<S>(
    s: seq<byte>, pos: nat, end: nat, step: (S, Token) -> S, st: S, t: Token)
    requires Readable(s, pos, end) && Writable(t) && !t.Fin?
    requires pos + |Encode(t)| <= end && At(s, pos, Encode(t))
    ensures Readable(s, pos + |Encode(t)|, end)
    ensures Walk(s, pos, end, step, st) == Walk(s, pos + |Encode(t)|, end, step, step(st, t))
  {
    ReadsBack(s, pos, end, t);
  }

  lemma {:induction false} InnerRest(ts: seq<Token>)
    requires Inner(ts) && ts != []
    ensures Writable(ts[0]) && !ts[0].Fin? && Inner(ts[1..])
    ensures EncodeAll(ts) == Encode(ts[0]) + EncodeAll(ts[1..])
  {}

  /** The first token and the rest, where they are stored. */
  lemma {:induction false} TokensSplit(s: seq<byte>, pos: nat, ts: seq<Token>)
    requires Inner(ts) && At(s, pos, EncodeAll(ts)) && ts != []
    ensures Writable(ts[0]) && !ts[0].Fin? && Inner(ts[1..])
    ensures At(s, pos, Encode(ts[0])) && At(s, pos + |Encode(ts[0])|, EncodeAll(ts[1..]))
    ensures |Encode(ts[0])| + |EncodeAll(ts[1..])| == |EncodeAll(ts)|
  {
    hide Encode, EncodeAll, At;
    InnerRest(ts);
    AtSplit(s, pos, Encode(ts[0]), EncodeAll(ts[1..]));
  }

  lemma {:induction false} TokenTurn<S>(
    s: seq<byte>, pos: nat, end: nat, step: (S, Token) -> S, st: S, t: Token, size: nat)
    requires Readable(s, pos, end) && Writable(t) && !t.Fin? && At(s, pos, Encode(t))
    requires size == |Encode(t)| && pos + size <= end
    ensures Readable(s, pos + size, end)
    ensures Walk(s, pos, end, step, st) == Walk(s, pos + size, end, step, step(st, t))
  {
    WalksOne(s, pos, end, step, st, t);
  }

  /** Walking over encoded tokens folds them and arrives right behind them. */
  lemma {:induction false} WalksTokens<S>(
    s: seq<byte>, pos: nat, end: nat, step: (S, Token) -> S, st: S, ts: seq<Token>, last: nat)
    requires Readable(s, pos, end) && Inner(ts)
    requires pos + |EncodeAll(ts)| == last <= end && At(s, pos, EncodeAll(ts)) && Readable(s, last, end)
    ensures Walk(s, pos, end, step, st) == Walk(s, last, end, step, Fold(step, st, ts))
    decreases |ts|
  {
    hide Walk, At, Encode;
    if ts != [] {
      TokensSplit(s, pos, ts);
      var size := |Encode(ts[0])|;
      TokenTurn(s, pos, end, step, st, ts[0], size);
      WalksTokens(s, pos + size, end, step, step(st, ts[0]), ts[1..], last);
    }
  }

  /** A whole structure block: its tokens, then the end token. */
  lemma {:induction false} WalksBlock<S>(
    s: seq<byte>, pos: nat, end: nat, step: (S, Token) -> S, st: S, ts: seq<Token>)
    requires Readable(s, pos, end) && Inner(ts)
    requires pos + |EncodeAll(ts)| + 4 <= end && At(s, pos, EncodeAll(ts) + Encode(Fin))
    ensures Walk(s, pos, end, step, st) == Walked(Fold(step, st, ts), true)
  {
    hide At, EncodeAll, Fold, Next;
    AtSplit(s, pos, EncodeAll(ts), Encode(Fin));
    AlignedSum(pos, |EncodeAll(ts)|);
    WalksTokens(s, pos, end, step, st, ts, pos + |EncodeAll(ts)|);
    ReadsBack(s, pos + |EncodeAll(ts)|, end, Fin);
  }

  /** A block that ends without an end token. */
  lemma {:induction false} WalksOpenBlock<S>(
    s: seq<byte>, pos: nat, end: nat, step: (S, Token) -> S, st: S, ts: seq<Token>)
    requires Readable(s, pos, end) && Inner(ts)
    requires pos + |EncodeAll(ts)| == end && At(s, pos, EncodeAll(ts))
    ensures Walk(s, pos, end, step, st) == Walked(Fold(step, st, ts), false)
  {
    hide At, EncodeAll, Fold;
    AlignedSum(pos, |EncodeAll(ts)|);
    WalksTokens(s, pos, end, step, st, ts, end);
  }

  // ---------------------------------------------------------------- trees

  /** A property, or a no-op token among the properties. */
  datatype Item = NopItem | Property(nameoff: nat, value: seq<byte>)

  datatype Node = Node(name: seq<byte>, props: seq<Item>, kids: Forest)

  /** Subnodes in order, with no-op tokens among them. */
  datatype Forest = Nil | Skip(rest: Forest) | Kid(node: Node, rest: Forest)

  function ItemTok(i: Item): Token {
    match i
    case NopItem => Nop
    case Property(off, value) => Prop(off, value)
  }

  function ItemToks(props: seq<Item>): (ts: seq<Token>)
    ensures |ts| == |props| && forall k | 0 <= k < |props| :: ts[k] == ItemTok(props[k])
  {
    seq(|props|, k requires 0 <= k < |props| => ItemTok(props[k]))
  }

  /** The tokens of a node: properties before subnodes (section 5.4.2). */
  function Tokens(n: Node): seq<Token> {
    [Begin(n.name)] + (ItemToks(n.props) + (ForestTokens(n.kids) + [End]))
  }

  function ForestTokens(f: Forest): seq<Token> {
    match f
    case Nil => []
    case Skip(rest) => [Nop] + ForestTokens(rest)
    case Kid(n, rest) => Tokens(n) + ForestTokens(rest)
  }

  /** Names without a zero byte; name offsets and value lengths that fit their fields. */
  ghost predicate WellFormed(n: Node) {
    0 !in n.name && (forall i | i in n.props :: Writable(ItemTok(i))) && WellFormedForest(n.kids)
  }

  ghost predicate WellFormedForest(f: Forest) {
    match f
    case Nil => true
    case Skip(rest) => WellFormedForest(rest)
    case Kid(n, rest) => WellFormed(n) && WellFormedForest(rest)
  }

  lemma {:induction false} TokensInner(n: Node)
    requires WellFormed(n)
    ensures Inner(Tokens(n))
    decreases n
  {
    ForestTokensInner(n.kids);
    forall t | t in ItemToks(n.props)
      ensures Writable(t) && !t.Fin?
    {
      var k :| 0 <= k < |n.props| && ItemToks(n.props)[k] == t;
      assert n.props[k] in n.props;
    }
  }

  lemma {:induction false} ForestTokensInner(f: Forest)
    requires WellFormedForest(f)
    ensures Inner(ForestTokens(f))
    decreases f
  {
    match f {
      case Nil =>
      case Skip(rest) => ForestTokensInner(rest);
      case Kid(n, rest) =>
        TokensInner(n);
        ForestTokensInner(rest);
    }
  }

  /** A blob's tree: no-ops, the root node, no-ops. */
  function BlobTokens(before: nat, root: Node, after: nat): seq<Token> {
    seq(before, _ => Nop) + (Tokens(root) + seq(after, _ => Nop))
  }

  lemma {:induction false} BlobInner(before: nat, root: Node, after: nat)
    requires WellFormed(root)
    ensures Inner(BlobTokens(before, root, after))
  {
    TokensInner(root);
    forall t | t in BlobTokens(before, root, after)
      ensures Writable(t) && !t.Fin?
    {
      assert t in seq(before, _ => Nop) || t in Tokens(root) || t in seq(after, _ => Nop);
    }
  }

  /** The structure block at `pos` is a flattening of `root`. */
  ghost predicate Flattened(s: seq<byte>, pos: nat, end: nat, before: nat, root: Node, after: nat) {
    && WellFormed(root) && Readable(s, pos, end)
    && (BlobInner(before, root, after);
        pos + |EncodeAll(BlobTokens(before, root, after))| + 4 <= end)
    && At(s, pos, EncodeAll(BlobTokens(before, root, after)) + Encode(Fin))
  }

  /** Leading and trailing no-ops that change no state leave the fold to the root's tokens. */
  lemma {:induction false} FoldsBlob<S>(step: (S, Token) -> S, st: S, before: nat, root: Node, after: nat)
    requires forall x :: step(x, Nop) == x
    ensures Fold(step, st, BlobTokens(before, root, after)) == Fold(step, st, Tokens(root))
  {
    FoldAppend(step, st, seq(before, _ => Nop), Tokens(root) + seq(after, _ => Nop));
    FoldAppend(step, st, Tokens(root), seq(after, _ => Nop));
    FoldsNops(step, st, before);
    FoldsNops(step, Fold(step, st, Tokens(root)), after);
  }

  lemma {:induction false} FoldsNops<S>(step: (S, Token) -> S, st: S, n: nat)
    requires forall x :: step(x, Nop) == x
    ensures Fold(step, st, seq(n, _ => Nop)) == st
    decreases n
  {
    if n > 0 {
      assert seq(n, _ => Nop)[1..] == seq(n - 1, _ => Nop);
      FoldsNops(step, st, n - 1);
    }
  }

  // ---------------------------------------------------------------- no-ops

  /** The same tree without any no-op token. */
  function Strip(n: Node): Node {
    Node(n.name, StripItems(n.props), StripForest(n.kids))
  }

  function StripItems(props: seq<Item>): seq<Item> {
    if props == [] then []
    else StripItems(props[..|props| - 1]) + if props[|props| - 1].NopItem? then [] else [props[|props| - 1]]
  }

  function StripForest(f: Forest): Forest {
    match f
    case Nil => Nil
    case Skip(rest) => StripForest(rest)
    case Kid(n, rest) => Kid(Strip(n), StripForest(rest))
  }
}
