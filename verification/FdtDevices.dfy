/** What `fdt_enumerate_devices` reports, as a fold over tokens and as a function of the tree. */
module FdtDevices {
  import opened Bytes
  import opened Fdt
  import opened FdtTokens
  import opened FdtWalk
  import opened Wrappers

  datatype Device = Device(name: seq<byte>, regBase: nat, regSize: nat, compatible: seq<byte>, depth: int)

  /** A device being built, and whether its two required properties were seen. */
  datatype Candidate = Candidate(dev: Device, hasReg: bool, hasCompatible: bool) {
    predicate Qualifies() {
      hasReg && hasCompatible
    }
  }

  /** The variables of the walker. */
  datatype Scan = Scan(cur: Candidate, depth: int, calls: seq<Device>)

  function Fresh(name: seq<byte>, depth: int): Candidate {
    Candidate(Device(name, 0, 0, [], depth), false, false)
  }

  const START: Scan := Scan(Candidate(Device([], 0, 0, [], 0), false, false), 0, [])

  /** A big-endian 64-bit cell pair. */
  function Be64(b: seq<byte>): nat
    requires |b| == 8
  {
    Be32(b[..4]) * 0x1_0000_0000 + Be32(b[4..])
  }

  /** The two cells are one number, the upper half first. */
  lemma {:induction false} Be64IsBigEndian(b: seq<byte>)
    requires |b| == 8
    ensures Be64(b) == BigEndian(b)
  {
    Be32IsBigEndian(b[..4]);
    Be32IsBigEndian(b[4..]);
    var w, lo := BigEndian(b[..4]), b[4..];
    assert b[..5][..4] == b[..4] && b[..6][..5] == b[..5] && b[..7][..6] == b[..6];
    assert BigEndian(b[..5]) == 0x100 * w + b[4];
    assert BigEndian(b[..6]) == 0x1_0000 * w + 0x100 * (b[4] as int) + b[5];
    assert BigEndian(b[..7]) == 0x100_0000 * w + 0x1_0000 * (b[4] as int) + 0x100 * (b[5] as int) + b[6];
    assert Be32(lo) == 0x100_0000 * (lo[0] as int) + 0x1_0000 * (lo[1] as int) + 0x100 * (lo[2] as int) + lo[3];
  }

  /** A `reg` value of 16 bytes or more gives base and size as big-endian numbers; a shorter one, and an empty
      `compatible`, change nothing. */
  lemma {:induction false} PropertyMeaning(c: Candidate, value: seq<byte>)
    ensures WithProp(c, Reg, value)
         == if |value| < 16 then c
            else Candidate(Device(c.dev.name, BigEndian(value[..8]), BigEndian(value[8..16]), c.dev.compatible,
                                  c.dev.depth), true, c.hasCompatible)
    ensures WithProp(c, Compatible, value)
         == if |value| == 0 then c
            else Candidate(Device(c.dev.name, c.dev.regBase, c.dev.regSize, value, c.dev.depth), c.hasReg, true)
  {
    if |value| >= 16 {
      Be64IsBigEndian(value[..8]);
      Be64IsBigEndian(value[8..16]);
    }
  }

  /** What a property does to the device being built. */
  function WithProp(c: Candidate, kind: Kind, value: seq<byte>): Candidate {
    match kind
    case Reg =>
      if |value| < 16 then c
      else c.(dev := c.dev.(regBase := Be64(value[..8]), regSize := Be64(value[8..16])), hasReg := true)
    case Compatible =>
      if |value| == 0 then c else c.(dev := c.dev.(compatible := value), hasCompatible := true)
    case _ => c
  }

  /** What an end tag reports. */
  function Report(c: Candidate): seq<Device> {
    if c.Qualifies() then [c.dev] else []
  }

  /** One turn of the walker's loop. */
  function Step(names: Names): (Scan, Token) -> Scan {
    (st: Scan, t: Token) =>
      match t
      case Begin(name) => Scan(Fresh(name, st.depth), st.depth + 1, st.calls)
      case End => st.(depth := st.depth - 1, calls := st.calls + Report(st.cur))
      case Prop(off, value) => st.(cur := WithProp(st.cur, names(off), value))
      case Nop => st
      case Fin => st
  }

  // ---------------------------------------------------------------- as a function of the tree

  /** The last property of a kind with a value of at least `min` bytes. */
  function LastOf(names: Names, props: seq<Item>, kind: Kind, min: nat): (r: Option<seq<byte>>)
    ensures r.Some? ==> |r.value| >= min
  {
    if props == [] then None
    else
      match props[|props| - 1]
      case Property(off, value) =>
        if names(off) == kind && |value| >= min then Some(value) else LastOf(names, props[..|props| - 1], kind, min)
      case NopItem => LastOf(names, props[..|props| - 1], kind, min)
  }

  /** A node's own device: its last usable `reg` and its last non-empty `compatible`. */
  function Own(names: Names, name: seq<byte>, props: seq<Item>, depth: int): Candidate {
    var reg := LastOf(names, props, Reg, 16);
    var compatible := LastOf(names, props, Compatible, 1);
    Candidate(
      Device(name,
             if reg.Some? then Be64(reg.value[..8]) else 0,
             if reg.Some? then Be64(reg.value[8..16]) else 0,
             if compatible.Some? then compatible.value else [],
             depth),
      reg.Some?, compatible.Some?)
  }

  /** The device of the node opened last inside `n`: what the end tag of `n` looks at. */
  function Opened(names: Names, n: Node, depth: int): Candidate {
    OpenedIn(names, n.kids, depth + 1, Own(names, n.name, n.props, depth))
  }

  function OpenedIn(names: Names, f: Forest, depth: int, before: Candidate): Candidate {
    match f
    case Nil => before
    case Skip(rest) => OpenedIn(names, rest, depth, before)
    case Kid(n, rest) => OpenedIn(names, rest, depth, Opened(names, n, depth))
  }

  /** The callbacks, in order: those of the subnodes, then one for the end tag if what it looks at qualifies. */
  function Calls(names: Names, n: Node, depth: int): seq<Device> {
    CallsIn(names, n.kids, depth + 1) + Report(Opened(names, n, depth))
  }

  function CallsIn(names: Names, f: Forest, depth: int): seq<Device> {
    match f
    case Nil => []
    case Skip(rest) => CallsIn(names, rest, depth)
    case Kid(n, rest) => Calls(names, n, depth) + CallsIn(names, rest, depth)
  }

  /** Item `i` is a property of this kind with a value of at least `min` bytes. */
  predicate Usable(names: Names, props: seq<Item>, i: nat, kind: Kind, min: nat)
    requires i < |props|
  {
    props[i].Property? && names(props[i].nameoff) == kind && |props[i].value| >= min
  }

  lemma {:induction false} LastOfMeans(names: Names, props: seq<Item>, kind: Kind, min: nat)
    ensures match LastOf(names, props, kind, min) {
              case None => forall i | 0 <= i < |props| :: !Usable(names, props, i, kind, min)
              case Some(v) =>
                exists i | 0 <= i < |props| ::
                  Usable(names, props, i, kind, min) && props[i].value == v
                  && forall j | i < j < |props| :: !Usable(names, props, j, kind, min)
            }
    decreases |props|
  {
    if props != [] {
      var n := |props| - 1;
      var init := props[..n];
      LastOfMeans(names, init, kind, min);
      assert forall i | 0 <= i < n :: Usable(names, props, i, kind, min) == Usable(names, init, i, kind, min);
      if Usable(names, props, n, kind, min) {
        assert LastOf(names, props, kind, min) == Some(props[n].value);
      } else {
        assert LastOf(names, props, kind, min) == LastOf(names, init, kind, min);
      }
    }
  }

  /** A node without subnodes is reported exactly when it has a `reg` of 16 bytes or more and a non-empty `compatible`,
      with the last of each: base and size are big-endian numbers. */
  lemma {:induction false} LeafMeaning(names: Names, name: seq<byte>, props: seq<Item>, depth: int)
    ensures var reg, compatible := LastOf(names, props, Reg, 16), LastOf(names, props, Compatible, 1);
            Calls(names, Node(name, props, Nil), depth) ==
            if reg.Some? && compatible.Some? then
              [Device(name, BigEndian(reg.value[..8]), BigEndian(reg.value[8..16]), compatible.value, depth)]
            else []
  {
    var reg, n := LastOf(names, props, Reg, 16), Node(name, props, Nil);
    if reg.Some? {
      Be64IsBigEndian(reg.value[..8]);
      Be64IsBigEndian(reg.value[8..16]);
    }
    hide Be64, BigEndian, LastOf;
    assert Opened(names, n, depth) == Own(names, name, props, depth);
    assert CallsIn(names, n.kids, depth + 1) == [];
    assert Calls(names, n, depth) == Report(Own(names, name, props, depth));
  }

  // ---------------------------------------------------------------- the fold computes it

  /** One more property is what the walker does with it. */
  lemma {:induction false} OwnExtends(names: Names, name: seq<byte>, props: seq<Item>, off: nat, v: seq<byte>, depth: int)
    ensures Own(names, name, props + [Property(off, v)], depth)
         == WithProp(Own(names, name, props, depth), names(off), v)
    ensures Own(names, name, props + [NopItem], depth) == Own(names, name, props, depth)
  {
    assert (props + [Property(off, v)])[..|props|] == props;
    assert (props + [NopItem])[..|props|] == props;
  }

  lemma {:induction false} FoldsProps(names: Names, st: Scan, name: seq<byte>, props: seq<Item>, depth: int)
    requires st.cur == Fresh(name, depth)
    ensures Fold(Step(names), st, ItemToks(props)) == st.(cur := Own(names, name, props, depth))
    decreases |props|
  {
    if props != [] {
      var init, last := props[..|props| - 1], props[|props| - 1];
      assert ItemToks(props) == ItemToks(init) + [ItemTok(last)];
      FoldAppend(Step(names), st, ItemToks(init), [ItemTok(last)]);
      FoldsProps(names, st, name, init, depth);
      FoldOne(Step(names), st.(cur := Own(names, name, init, depth)), ItemTok(last));
      assert props == init + [last];
      match last {
        case NopItem => OwnExtends(names, name, init, 0, [], depth);
        case Property(off, value) => OwnExtends(names, name, init, off, value, depth);
      }
    } else {
      assert ItemToks(props) == [];
    }
  }

  lemma {:induction false} FoldsNode(names: Names, st: Scan, n: Node)
    ensures Fold(Step(names), st, Tokens(n))
         == Scan(Opened(names, n, st.depth), st.depth, st.calls + Calls(names, n, st.depth))
    decreases n
  {
    var step := Step(names);
    var d := st.depth;
    var s1 := Scan(Fresh(n.name, d), d + 1, st.calls);
    var s2 := s1.(cur := Own(names, n.name, n.props, d));
    var s3 := Scan(Opened(names, n, d), d + 1, st.calls + CallsIn(names, n.kids, d + 1));
    FoldAppend(step, st, [Begin(n.name)], ItemToks(n.props) + (ForestTokens(n.kids) + [End]));
    FoldOne(Step(names), st, Begin(n.name));
    FoldAppend(step, s1, ItemToks(n.props), ForestTokens(n.kids) + [End]);
    FoldsProps(names, s1, n.name, n.props, d);
    FoldAppend(step, s2, ForestTokens(n.kids), [End]);
    FoldsForest(names, s2, n.kids);
    FoldOne(Step(names), s3, End);
    assert s3.calls + Report(s3.cur) == st.calls + Calls(names, n, d);
  }

  lemma {:induction false} FoldsForest(names: Names, st: Scan, f: Forest)
    ensures Fold(Step(names), st, ForestTokens(f))
         == Scan(OpenedIn(names, f, st.depth, st.cur), st.depth, st.calls + CallsIn(names, f, st.depth))
    decreases f
  {
    hide Own, LastOf, Report, Opened, Calls, Tokens;
    match f {
      case Nil => assert st.calls + [] == st.calls;
      case Skip(rest) =>
        FoldAppend(Step(names), st, [Nop], ForestTokens(rest));
        FoldOne(Step(names), st, Nop);
        FoldsForest(names, st, rest);
      case Kid(n, rest) =>
        var s1 := Scan(Opened(names, n, st.depth), st.depth, st.calls + Calls(names, n, st.depth));
        FoldAppend(Step(names), st, Tokens(n), ForestTokens(rest));
        FoldsNode(names, st, n);
        FoldsForest(names, s1, rest);
        assert s1.calls + CallsIn(names, rest, st.depth) == st.calls + CallsIn(names, f, st.depth);
    }
  }

  /** Walking the flattening of a tree, no-ops anywhere, makes exactly the callbacks of the tree. */
  lemma {:induction false} EnumeratesTree(
    names: Names, s: seq<byte>, pos: nat, end: nat, before: nat, root: Node, after: nat)
    requires Flattened(s, pos, end, before, root, after)
    ensures Walk(s, pos, end, Step(names), START).finished
    ensures Walk(s, pos, end, Step(names), START).state.calls == Calls(names, root, 0)
  {
    BlobInner(before, root, after);
    WalksBlock(s, pos, end, Step(names), START, BlobTokens(before, root, after));
    FoldsBlob(Step(names), START, before, root, after);
    FoldsNode(names, START, root);
  }

  // ---------------------------------------------------------------- only what the names mean counts

  lemma {:induction false} SameLastOf(names: Names, names': Names, props: seq<Item>, kind: Kind, min: nat)
    requires forall off :: names(off) == names'(off)
    ensures LastOf(names, props, kind, min) == LastOf(names', props, kind, min)
    decreases |props|
  {
    if props != [] {
      SameLastOf(names, names', props[..|props| - 1], kind, min);
    }
  }

  lemma {:induction false} SameCalls(names: Names, names': Names, n: Node, depth: int)
    requires forall off :: names(off) == names'(off)
    ensures Calls(names, n, depth) == Calls(names', n, depth) && Opened(names, n, depth) == Opened(names', n, depth)
    decreases n
  {
    SameLastOf(names, names', n.props, Reg, 16);
    SameLastOf(names, names', n.props, Compatible, 1);
    SameCallsIn(names, names', n.kids, depth + 1, Own(names, n.name, n.props, depth));
  }

  lemma {:induction false} SameCallsIn(names: Names, names': Names, f: Forest, depth: int, before: Candidate)
    requires forall off :: names(off) == names'(off)
    ensures CallsIn(names, f, depth) == CallsIn(names', f, depth)
    ensures OpenedIn(names, f, depth, before) == OpenedIn(names', f, depth, before)
    decreases f
  {
    match f {
      case Nil =>
      case Skip(rest) => SameCallsIn(names, names', rest, depth, before);
      case Kid(n, rest) =>
        SameCalls(names, names', n, depth);
        SameCallsIn(names, names', rest, depth, Opened(names, n, depth));
    }
  }

  // ---------------------------------------------------------------- which nodes are reported, how often

  /** The path of a node: the index of a subnode at each level. */
  type Path = seq<nat>

  function Count(f: Forest): nat {
    match f
    case Nil => 0
    case Skip(rest) => Count(rest)
    case Kid(_, rest) => 1 + Count(rest)
  }

  function KidAt(f: Forest, i: nat): Node
    requires i < Count(f)
  {
    match f
    case Skip(rest) => KidAt(rest, i)
    case Kid(n, rest) => if i == 0 then n else KidAt(rest, i - 1)
  }

  /** `p` leads to a node without subnodes. */
  predicate IsLeaf(n: Node, p: Path)
    decreases p
  {
    if p == [] then Count(n.kids) == 0 else p[0] < Count(n.kids) && IsLeaf(KidAt(n.kids, p[0]), p[1..])
  }

  /** The path of the last leaf: down the last subnode at every level. */
  function Rightmost(n: Node): Path {
    RightmostIn(n.kids, 0, [])
  }

  /** As `Rightmost`, for subnodes numbered from `i` on; `before` is the answer if there are none. */
  function RightmostIn(f: Forest, i: nat, before: Path): Path {
    match f
    case Nil => before
    case Skip(rest) => RightmostIn(rest, i, before)
    case Kid(n, rest) => RightmostIn(rest, i + 1, [i] + Rightmost(n))
  }

  /** For every end tag, in order, the path of the node whose device it looks at. */
  function EndTags(n: Node): seq<Path> {
    EndTagsIn(n.kids, 0) + [Rightmost(n)]
  }

  function EndTagsIn(f: Forest, i: nat): seq<Path> {
    match f
    case Nil => []
    case Skip(rest) => EndTagsIn(rest, i)
    case Kid(n, rest) => Below(i, EndTags(n)) + EndTagsIn(rest, i + 1)
  }

  /** Paths seen from one level up. */
  function Below(i: nat, ps: seq<Path>): (r: seq<Path>)
    ensures |r| == |ps| && forall k | 0 <= k < |ps| :: r[k] == [i] + ps[k]
  {
    seq(|ps|, k requires 0 <= k < |ps| => [i] + ps[k])
  }

  function Times(ps: seq<Path>, p: Path): nat {
    multiset(ps)[p]
  }

  /** How many proper ancestors of the node at `p` have it as their last leaf. */
  function RightmostOf(n: Node, p: Path): nat
    requires IsLeaf(n, p)
    decreases p
  {
    if p == [] then 0
    else (if Rightmost(n) == p then 1 else 0) + RightmostOf(KidAt(n.kids, p[0]), p[1..])
  }

  lemma {:induction false} BelowTimes(i: nat, ps: seq<Path>, p: Path)
    ensures Times(Below(i, ps), p) == if p != [] && p[0] == i then Times(ps, p[1..]) else 0
    decreases |ps|
  {
    if ps != [] {
      var init := ps[..|ps| - 1];
      var last := ps[|ps| - 1];
      assert ps == init + [last] && Below(i, ps) == Below(i, init) + [[i] + last];
      BelowTimes(i, init, p);
      assert p != [] && p[0] == i ==> (p == [i] + last <==> p[1..] == last);
    } else {
      assert Below(i, ps) == [];
    }
  }

  lemma {:induction false} TimesIn(f: Forest, i: nat, p: Path)
    ensures Times(EndTagsIn(f, i), p)
         == if p != [] && i <= p[0] < i + Count(f) then Times(EndTags(KidAt(f, p[0] - i)), p[1..]) else 0
    decreases f
  {
    match f {
      case Nil =>
      case Skip(rest) => TimesIn(rest, i, p);
      case Kid(n, rest) =>
        BelowTimes(i, EndTags(n), p);
        TimesIn(rest, i + 1, p);
    }
  }

  lemma {:induction false} RightmostIsLeaf(n: Node)
    ensures IsLeaf(n, Rightmost(n))
    ensures Rightmost(n) == [] <==> Count(n.kids) == 0
    decreases n
  {
    RightmostInIsLeaf(n.kids, 0, []);
  }

  lemma {:induction false} RightmostInIsLeaf(f: Forest, i: nat, before: Path)
    ensures Count(f) == 0 ==> RightmostIn(f, i, before) == before
    ensures Count(f) > 0 ==>
              var p := RightmostIn(f, i, before);
              p != [] && p[0] == i + Count(f) - 1 && IsLeaf(KidAt(f, Count(f) - 1), p[1..])
    decreases f
  {
    match f {
      case Nil =>
      case Skip(rest) => RightmostInIsLeaf(rest, i, before);
      case Kid(n, rest) =>
        RightmostIsLeaf(n);
        RightmostInIsLeaf(rest, i + 1, [i] + Rightmost(n));
        assert ([i] + Rightmost(n))[1..] == Rightmost(n);
    }
  }

  lemma {:induction false} KidSmaller(f: Forest, i: nat)
    requires i < Count(f)
    ensures KidAt(f, i) < f
    decreases f
  {
    match f {
      case Skip(rest) => KidSmaller(rest, i);
      case Kid(n, rest) => if i > 0 { KidSmaller(rest, i - 1); }
    }
  }

  /** A leaf is looked at by 1 + (number of ancestors whose last leaf it is) end tags; a node with subnodes,
      by none. */
  lemma {:induction false} LookedAt(n: Node, p: Path)
    ensures Times(EndTags(n), p) == if IsLeaf(n, p) then 1 + RightmostOf(n, p) else 0
    decreases n
  {
    assert Times(EndTags(n), p) == Times(EndTagsIn(n.kids, 0), p) + if Rightmost(n) == p then 1 else 0;
    TimesIn(n.kids, 0, p);
    RightmostIsLeaf(n);
    if p != [] && p[0] < Count(n.kids) {
      KidSmaller(n.kids, p[0]);
      LookedAt(KidAt(n.kids, p[0]), p[1..]);
    }
  }

  function NodeAt(n: Node, p: Path): Node
    requires IsLeaf(n, p)
    decreases p
  {
    if p == [] then n else NodeAt(KidAt(n.kids, p[0]), p[1..])
  }

  /** The device of the node at `p` itself. */
  function OwnAt(names: Names, n: Node, p: Path, depth: int): Candidate
    requires IsLeaf(n, p)
  {
    Own(names, NodeAt(n, p).name, NodeAt(n, p).props, depth + |p|)
  }

  /** What an end tag looks at is the last leaf below it. */
  lemma {:induction false} OpenedIsRightmost(names: Names, n: Node, depth: int)
    ensures IsLeaf(n, Rightmost(n)) && Opened(names, n, depth) == OwnAt(names, n, Rightmost(n), depth)
    decreases n
  {
    RightmostIsLeaf(n);
    RightmostInIsLeaf(n.kids, 0, []);
    OpenedInIsRightmost(names, n.kids, 0, depth + 1, Own(names, n.name, n.props, depth), []);
  }

  lemma {:induction false} OpenedInIsRightmost(
    names: Names, f: Forest, i: nat, depth: int, before: Candidate, path: Path)
    ensures Count(f) == 0 ==> OpenedIn(names, f, depth, before) == before
    ensures Count(f) > 0 ==>
              var p := RightmostIn(f, i, path);
              var last := KidAt(f, Count(f) - 1);
              p != [] && IsLeaf(last, p[1..]) && OpenedIn(names, f, depth, before) == OwnAt(names, last, p[1..], depth)
    decreases f
  {
    match f {
      case Nil =>
      case Skip(rest) => OpenedInIsRightmost(names, rest, i, depth, before, path);
      case Kid(n, rest) =>
        OpenedIsRightmost(names, n, depth);
        OpenedInIsRightmost(names, rest, i + 1, depth, Opened(names, n, depth), [i] + Rightmost(n));
        RightmostInIsLeaf(rest, i + 1, [i] + Rightmost(n));
        assert ([i] + Rightmost(n))[1..] == Rightmost(n);
    }
  }

  /** The devices the end tags of `n` look at, where they qualify. */
  function Reports(names: Names, n: Node, depth: int, tags: seq<Path>): seq<Device>
    requires forall p | p in tags :: IsLeaf(n, p)
  {
    if tags == [] then [] else Report(OwnAt(names, n, tags[0], depth)) + Reports(names, n, depth, tags[1..])
  }

  lemma {:induction false} ReportsAppend(names: Names, n: Node, depth: int, ps: seq<Path>, qs: seq<Path>)
    requires (forall p | p in ps :: IsLeaf(n, p)) && (forall p | p in qs :: IsLeaf(n, p))
    ensures Reports(names, n, depth, ps + qs) == Reports(names, n, depth, ps) + Reports(names, n, depth, qs)
    decreases |ps|
  {
    if ps == [] {
      assert ps + qs == qs;
    } else {
      assert (ps + qs)[1..] == ps[1..] + qs;
      ReportsAppend(names, n, depth, ps[1..], qs);
    }
  }

  lemma {:induction false} BelowAreLeaves(n: Node, i: nat, ps: seq<Path>)
    requires i < Count(n.kids) && forall p | p in ps :: IsLeaf(KidAt(n.kids, i), p)
    ensures forall p | p in Below(i, ps) :: IsLeaf(n, p)
  {
    forall p | p in Below(i, ps)
      ensures IsLeaf(n, p)
    {
      var k :| 0 <= k < |ps| && Below(i, ps)[k] == p;
      assert p[1..] == ps[k];
    }
  }

  lemma {:induction false} ReportsBelow(names: Names, n: Node, depth: int, i: nat, ps: seq<Path>)
    requires i < Count(n.kids) && forall p | p in ps :: IsLeaf(KidAt(n.kids, i), p)
    requires forall p | p in Below(i, ps) :: IsLeaf(n, p)
    ensures Reports(names, n, depth, Below(i, ps)) == Reports(names, KidAt(n.kids, i), depth + 1, ps)
    decreases |ps|
  {
    hide Report, Own, KidAt, Count;
    if ps != [] {
      assert Below(i, ps)[1..] == Below(i, ps[1..]);
      assert Below(i, ps)[0][1..] == ps[0];
      ReportsBelow(names, n, depth, i, ps[1..]);
    }
  }

  lemma {:induction false} TagsAreLeaves(n: Node)
    ensures forall p | p in EndTags(n) :: IsLeaf(n, p)
  {
    forall p | p in EndTags(n)
      ensures IsLeaf(n, p)
    {
      LookedAt(n, p);
      assert p in multiset(EndTags(n));
    }
  }

  /** The callbacks of a tree are the qualifying devices its end tags look at, in order. */
  lemma {:induction false} CallsAreReports(names: Names, n: Node, depth: int)
    ensures forall p | p in EndTags(n) :: IsLeaf(n, p)
    ensures Calls(names, n, depth) == Reports(names, n, depth, EndTags(n))
    decreases n, 0
  {
    TagsAreLeaves(n);
    OpenedIsRightmost(names, n, depth);
    ReportsAppend(names, n, depth, EndTagsIn(n.kids, 0), [Rightmost(n)]);
    CallsInAreReports(names, n, n.kids, 0, depth);
    assert Reports(names, n, depth, [Rightmost(n)]) == Report(Opened(names, n, depth)) by {
      assert [Rightmost(n)][1..] == [];
    }
  }

  /** `f` is the subnodes of `n` from the `i`th on. */
  ghost predicate FromKid(n: Node, f: Forest, i: nat) {
    Count(n.kids) == i + Count(f) && forall k | 0 <= k < Count(f) :: KidAt(f, k) == KidAt(n.kids, i + k)
  }

  lemma {:induction false} FromNextKid(n: Node, f: Forest, i: nat)
    requires FromKid(n, f, i)
    ensures f.Skip? ==> FromKid(n, f.rest, i)
    ensures f.Kid? ==> FromKid(n, f.rest, i + 1) && i < Count(n.kids) && KidAt(n.kids, i) == f.node
  {
    if f.Kid? {
      assert KidAt(f, 0) == f.node;
      assert forall k | 0 <= k < Count(f.rest) :: KidAt(f.rest, k) == KidAt(f, k + 1);
    } else if f.Skip? {
      assert forall k | 0 <= k < Count(f.rest) :: KidAt(f.rest, k) == KidAt(f, k);
    }
  }

  lemma {:induction false} CallsInAreReports(names: Names, n: Node, f: Forest, i: nat, depth: int)
    requires FromKid(n, f, i)
    ensures forall p | p in EndTagsIn(f, i) :: IsLeaf(n, p)
    ensures CallsIn(names, f, depth + 1) == Reports(names, n, depth, EndTagsIn(f, i))
    decreases f
  {
    FromNextKid(n, f, i);
    match f {
      case Nil =>
      case Skip(rest) => CallsInAreReports(names, n, rest, i, depth);
      case Kid(m, rest) =>
        CallsAreReports(names, m, depth + 1);
        CallsInAreReports(names, n, rest, i + 1, depth);
        BelowAreLeaves(n, i, EndTags(m));
        ReportsBelow(names, n, depth, i, EndTags(m));
        ReportsAppend(names, n, depth, Below(i, EndTags(m)), EndTagsIn(rest, i + 1));
    }
  }

  // ---------------------------------------------------------------- when each leaf is reported once

  /** Each qualifying leaf once, in document order. */
  function LeafReports(names: Names, n: Node, depth: int): seq<Device> {
    if Count(n.kids) == 0 then Report(Own(names, n.name, n.props, depth)) else LeafReportsIn(names, n.kids, depth + 1)
  }

  function LeafReportsIn(names: Names, f: Forest, depth: int): seq<Device> {
    match f
    case Nil => []
    case Skip(rest) => LeafReportsIn(names, rest, depth)
    case Kid(n, rest) => LeafReports(names, n, depth) + LeafReportsIn(names, rest, depth)
  }

  /** The nodes with subnodes whose last leaf qualifies. */
  function Echoes(names: Names, n: Node, depth: int): nat {
    EchoesIn(names, n.kids, depth + 1) + if Count(n.kids) > 0 && Opened(names, n, depth).Qualifies() then 1 else 0
  }

  function EchoesIn(names: Names, f: Forest, depth: int): nat {
    match f
    case Nil => 0
    case Skip(rest) => EchoesIn(names, rest, depth)
    case Kid(n, rest) => Echoes(names, n, depth) + EchoesIn(names, rest, depth)
  }

  lemma {:induction false} NoKids(names: Names, f: Forest, depth: int, before: Candidate)
    requires Count(f) == 0
    ensures CallsIn(names, f, depth) == [] && OpenedIn(names, f, depth, before) == before
    ensures EchoesIn(names, f, depth) == 0
    decreases f
  {
    match f {
      case Nil =>
      case Skip(rest) => NoKids(names, rest, depth, before);
    }
  }

  /** One callback too many for every node with subnodes whose last leaf qualifies; so the callbacks are the
      qualifying leaves, each once and in document order, exactly when there is no such node. */
  lemma {:induction false} OnceEachIffNoEcho(names: Names, n: Node, depth: int)
    ensures |Calls(names, n, depth)| == |LeafReports(names, n, depth)| + Echoes(names, n, depth)
    ensures Calls(names, n, depth) == LeafReports(names, n, depth) <==> Echoes(names, n, depth) == 0
    decreases n
  {
    if Count(n.kids) == 0 {
      NoKids(names, n.kids, depth + 1, Own(names, n.name, n.props, depth));
    } else {
      OnceEachIn(names, n.kids, depth + 1);
    }
  }

  lemma {:induction false} OnceEachIn(names: Names, f: Forest, depth: int)
    ensures |CallsIn(names, f, depth)| == |LeafReportsIn(names, f, depth)| + EchoesIn(names, f, depth)
    ensures EchoesIn(names, f, depth) == 0 ==> CallsIn(names, f, depth) == LeafReportsIn(names, f, depth)
    decreases f
  {
    match f {
      case Nil =>
      case Skip(rest) => OnceEachIn(names, rest, depth);
      case Kid(n, rest) =>
        OnceEachIffNoEcho(names, n, depth);
        OnceEachIn(names, rest, depth);
    }
  }

  /** A node below `k` nodes with one subnode each and no properties. */
  function Nested(n: Node, k: nat): Node {
    if k == 0 then n else Node([], [], Kid(Nested(n, k - 1), Nil))
  }

  /** A qualifying leaf below `k` such nodes is reported `k + 1` times. */
  lemma {:induction false} NestedEchoes(names: Names, leaf: Node, k: nat, depth: int)
    requires Count(leaf.kids) == 0 && Own(names, leaf.name, leaf.props, depth + k).Qualifies()
    ensures var d := Own(names, leaf.name, leaf.props, depth + k);
            && Opened(names, Nested(leaf, k), depth) == d
            && Calls(names, Nested(leaf, k), depth) == seq(k + 1, _ => d.dev)
            && LeafReports(names, Nested(leaf, k), depth) == [d.dev]
    decreases k
  {
    hide Own;
    var n := Nested(leaf, k);
    if k == 0 {
      NoKids(names, leaf.kids, depth + 1, Own(names, leaf.name, leaf.props, depth));
    } else {
      var m, d := Nested(leaf, k - 1), Own(names, leaf.name, leaf.props, depth + k);
      NestedEchoes(names, leaf, k - 1, depth + 1);
      assert n.kids == Kid(m, Nil) && Count(n.kids) == 1;
      assert Opened(names, n, depth) == OpenedIn(names, Nil, depth + 1, Opened(names, m, depth + 1)) == d;
      assert seq(k, _ => d.dev) + [d.dev] == seq(k + 1, _ => d.dev);
      assert CallsIn(names, n.kids, depth + 1) == Calls(names, Nested(leaf, k - 1), depth + 1);
      assert LeafReportsIn(names, n.kids, depth + 1) == LeafReports(names, Nested(leaf, k - 1), depth + 1);
    }
  }

  /** A leaf with `reg` and `compatible`, where the strings block is that of `"reg\0compatible\0"`. */
  const UART_LEAF: Node := Node([117], [Property(0, Zeros(16)), Property(4, [112, 0])], Nil)

  /** A tree with an echo: an inner node over that leaf, which is reported twice. */
  lemma {:induction false} ReportedTwice(names: Names)
    requires names(0) == Reg && names(4) == Compatible
    ensures WellFormed(Nested(UART_LEAF, 1))
    ensures |Calls(names, Nested(UART_LEAF, 1), 0)| == 2 && |LeafReports(names, Nested(UART_LEAF, 1), 0)| == 1
    ensures Echoes(names, Nested(UART_LEAF, 1), 0) == 1
  {
    var props := UART_LEAF.props;
    assert props[..1] == [Property(0, Zeros(16))] && props[..1][..0] == [];
    assert LastOf(names, props[..1], Reg, 16).Some? && LastOf(names, props, Compatible, 1).Some?;
    assert LastOf(names, props, Reg, 16).Some?;
    NestedEchoes(names, UART_LEAF, 1, 0);
    OnceEachIffNoEcho(names, Nested(UART_LEAF, 1), 0);
  }

  // ---------------------------------------------------------------- no-ops change nothing

  lemma {:induction false} LastOfStripped(names: Names, props: seq<Item>, kind: Kind, min: nat)
    ensures LastOf(names, StripItems(props), kind, min) == LastOf(names, props, kind, min)
    decreases |props|
  {
    if props != [] {
      var init, last := props[..|props| - 1], props[|props| - 1];
      LastOfStripped(names, init, kind, min);
      if last.Property? {
        assert (StripItems(init) + [last])[..|StripItems(init)|] == StripItems(init);
      } else {
        assert StripItems(props) == StripItems(init);
      }
    }
  }

  lemma {:induction false} NopsChangeNoCalls(names: Names, n: Node, depth: int)
    ensures Calls(names, Strip(n), depth) == Calls(names, n, depth)
    ensures Opened(names, Strip(n), depth) == Opened(names, n, depth)
    decreases n
  {
    LastOfStripped(names, n.props, Reg, 16);
    LastOfStripped(names, n.props, Compatible, 1);
    NopsChangeNoCallsIn(names, n.kids, depth + 1, Own(names, n.name, n.props, depth));
  }

  lemma {:induction false} NopsChangeNoCallsIn(names: Names, f: Forest, depth: int, before: Candidate)
    ensures CallsIn(names, StripForest(f), depth) == CallsIn(names, f, depth)
    ensures OpenedIn(names, StripForest(f), depth, before) == OpenedIn(names, f, depth, before)
    decreases f
  {
    match f {
      case Nil =>
      case Skip(rest) => NopsChangeNoCallsIn(names, rest, depth, before);
      case Kid(n, rest) =>
        NopsChangeNoCalls(names, n, depth);
        NopsChangeNoCallsIn(names, rest, depth, Opened(names, n, depth));
    }
  }
}
