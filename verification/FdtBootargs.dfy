/** What `fdt_get_bootargs` finds, as a fold over tokens and as a function of the tree. */
module FdtBootargs {
  import opened Bytes
  import opened FdtTokens
  import opened FdtWalk
  import opened Wrappers

  /** The variables of the walker. */
  datatype Boot = Boot(depth: int, inChosen: bool, bootargs: Option<seq<byte>>)

  const START: Boot := Boot(0, false, None)

  /** One turn of the walker's loop. */
  function Step(names: Names): (Boot, Token) -> Boot {
    (st: Boot, t: Token) =>
      match t
      case Begin(name) => st.(inChosen := st.inChosen || (st.depth == 1 && name == CHOSEN_NAME), depth := st.depth + 1)
      case End => st.(depth := st.depth - 1, inChosen := st.inChosen && st.depth - 1 != 1)
      case Prop(off, value) =>
        if st.inChosen && names(off) == Bootargs && |value| > 0 then st.(bootargs := Some(value)) else st
      case Nop => st
      case Fin => st
  }

  // ---------------------------------------------------------------- as a function of the tree

  /** The non-empty `bootargs` values among properties, in order. */
  function ArgsOf(names: Names, props: seq<Item>): seq<seq<byte>> {
    if props == [] then []
    else
      (match props[0]
       case Property(off, value) => if names(off) == Bootargs && |value| > 0 then [value] else []
       case NopItem => [])
      + ArgsOf(names, props[1..])
  }

  /** What counts is every property of that name with a value that is not empty. */
  lemma {:induction false} ArgsOfMember(names: Names, props: seq<Item>, v: seq<byte>)
    ensures v in ArgsOf(names, props) <==> v != [] && exists i | 0 <= i < |props| :: IsArgs(names, props[i], v)
    decreases |props|
  {
    if props != [] {
      ArgsOfMember(names, props[1..], v);
      assert (exists i | 0 <= i < |props| :: IsArgs(names, props[i], v)) <==>
             IsArgs(names, props[0], v) || exists i | 0 <= i < |props[1..]| :: IsArgs(names, props[1..][i], v) by {
        if i :| 0 <= i < |props| && IsArgs(names, props[i], v) {
          assert i > 0 ==> props[1..][i - 1] == props[i];
        }
      }
    }
  }

  predicate IsArgs(names: Names, p: Item, v: seq<byte>) {
    p.Property? && names(p.nameoff) == Bootargs && p.value == v
  }

  /** The non-empty `bootargs` values in a subtree, in stream order. */
  function ArgsIn(names: Names, n: Node): seq<seq<byte>> {
    ArgsOf(names, n.props) + ArgsInForest(names, n.kids)
  }

  function ArgsInForest(names: Names, f: Forest): seq<seq<byte>> {
    match f
    case Nil => []
    case Skip(rest) => ArgsInForest(names, rest)
    case Kid(n, rest) => ArgsIn(names, n) + ArgsInForest(names, rest)
  }

  /** Those inside the subnodes named "chosen" of one node, and nowhere else. */
  function ChosenArgs(names: Names, f: Forest): seq<seq<byte>> {
    match f
    case Nil => []
    case Skip(rest) => ChosenArgs(names, rest)
    case Kid(n, rest) =>
      (if n.name == [99, 104, 111, 115, 101, 110] then ArgsIn(names, n) else []) + ChosenArgs(names, rest)
  }

  /** The last of `vs`, or what was there before. */
  function Last(vs: seq<seq<byte>>, before: Option<seq<byte>>): Option<seq<byte>> {
    if vs == [] then before else Some(vs[|vs| - 1])
  }

  lemma {:induction false} LastAppend(vs: seq<seq<byte>>, ws: seq<seq<byte>>, before: Option<seq<byte>>)
    ensures Last(vs + ws, before) == Last(ws, Last(vs, before))
  {}

  // ---------------------------------------------------------------- the fold computes it

  lemma {:induction false} FoldsProps(names: Names, st: Boot, props: seq<Item>)
    ensures Fold(Step(names), st, ItemToks(props))
         == if st.inChosen then st.(bootargs := Last(ArgsOf(names, props), st.bootargs)) else st
    decreases |props|
  {
    if props != [] {
      var t := ItemTok(props[0]);
      assert ItemToks(props)[1..] == ItemToks(props[1..]);
      FoldsProps(names, Step(names)(st, t), props[1..]);
    } else {
      assert ItemToks(props) == [];
    }
  }

  /** A node's tokens, given what its properties and its subnodes do. */
  lemma {:induction false} FoldsParts(names: Names, st: Boot, n: Node, s1: Boot, s2: Boot, s3: Boot)
    requires s1 == Step(names)(st, Begin(n.name))
    requires s2 == Fold(Step(names), s1, ItemToks(n.props))
    requires s3 == Fold(Step(names), s2, ForestTokens(n.kids))
    ensures Fold(Step(names), st, Tokens(n)) == Step(names)(s3, End)
  {
    var step := Step(names);
    FoldAppend(step, st, [Begin(n.name)], ItemToks(n.props) + (ForestTokens(n.kids) + [End]));
    FoldOne(Step(names), st, Begin(n.name));
    FoldAppend(step, s1, ItemToks(n.props), ForestTokens(n.kids) + [End]);
    FoldAppend(step, s2, ForestTokens(n.kids), [End]);
    FoldOne(Step(names), s3, End);
  }

  /** Below a chosen node everything counts; below any other node nothing does, whatever its name. */
  lemma {:induction false} FoldsDeep(names: Names, st: Boot, n: Node)
    requires st.depth >= 2
    ensures Fold(Step(names), st, Tokens(n))
         == if st.inChosen then st.(bootargs := Last(ArgsIn(names, n), st.bootargs)) else st
    decreases n
  {
    var s1 := st.(depth := st.depth + 1);
    var s2 := if st.inChosen then s1.(bootargs := Last(ArgsOf(names, n.props), st.bootargs)) else s1;
    var s3 := if st.inChosen then s2.(bootargs := Last(ArgsInForest(names, n.kids), s2.bootargs)) else s2;
    FoldsProps(names, s1, n.props);
    FoldsDeepForest(names, s2, n.kids);
    FoldsParts(names, st, n, s1, s2, s3);
    LastAppend(ArgsOf(names, n.props), ArgsInForest(names, n.kids), st.bootargs);
  }

  lemma {:induction false} FoldsDeepForest(names: Names, st: Boot, f: Forest)
    requires st.depth >= 2
    ensures Fold(Step(names), st, ForestTokens(f))
         == if st.inChosen then st.(bootargs := Last(ArgsInForest(names, f), st.bootargs)) else st
    decreases f
  {
    match f {
      case Nil =>
      case Skip(rest) =>
        FoldAppend(Step(names), st, [Nop], ForestTokens(rest));
        FoldOne(Step(names), st, Nop);
        FoldsDeepForest(names, st, rest);
      case Kid(n, rest) =>
        var s1 := if st.inChosen then st.(bootargs := Last(ArgsIn(names, n), st.bootargs)) else st;
        FoldAppend(Step(names), st, Tokens(n), ForestTokens(rest));
        FoldsDeep(names, st, n);
        FoldsDeepForest(names, s1, rest);
        LastAppend(ArgsIn(names, n), ArgsInForest(names, rest), st.bootargs);
    }
  }

  /** A subnode of the root: it counts exactly if it is named "chosen", and it leaves the flag clear. */
  lemma {:induction false} FoldsTop(names: Names, st: Boot, n: Node)
    requires st.depth == 1 && !st.inChosen
    ensures Fold(Step(names), st, Tokens(n))
         == if n.name == CHOSEN_NAME then st.(bootargs := Last(ArgsIn(names, n), st.bootargs)) else st
  {
    var chosen := n.name == CHOSEN_NAME;
    var s1 := st.(depth := 2, inChosen := chosen);
    var s2 := if chosen then s1.(bootargs := Last(ArgsOf(names, n.props), st.bootargs)) else s1;
    var s3 := if chosen then s2.(bootargs := Last(ArgsInForest(names, n.kids), s2.bootargs)) else s2;
    FoldsProps(names, s1, n.props);
    FoldsDeepForest(names, s2, n.kids);
    FoldsParts(names, st, n, s1, s2, s3);
    LastAppend(ArgsOf(names, n.props), ArgsInForest(names, n.kids), st.bootargs);
  }

  lemma {:induction false} FoldsTopForest(names: Names, st: Boot, f: Forest)
    requires st.depth == 1 && !st.inChosen
    ensures Fold(Step(names), st, ForestTokens(f)) == st.(bootargs := Last(ChosenArgs(names, f), st.bootargs))
    decreases f
  {
    match f {
      case Nil =>
      case Skip(rest) =>
        FoldAppend(Step(names), st, [Nop], ForestTokens(rest));
        FoldOne(Step(names), st, Nop);
        FoldsTopForest(names, st, rest);
      case Kid(n, rest) =>
        var args := if n.name == CHOSEN_NAME then ArgsIn(names, n) else [];
        FoldAppend(Step(names), st, Tokens(n), ForestTokens(rest));
        FoldsTop(names, st, n);
        FoldsTopForest(names, st.(bootargs := Last(args, st.bootargs)), rest);
        LastAppend(args, ChosenArgs(names, rest), st.bootargs);
    }
  }

  /** Walking the flattening of a tree, no-ops anywhere, yields the last non-empty `bootargs` value inside a
      depth-1 node named "chosen", or nothing if there is none. */
  lemma {:induction false} FindsBootargs(
    names: Names, s: seq<byte>, pos: nat, end: nat, before: nat, root: Node, after: nat)
    requires Flattened(s, pos, end, before, root, after)
    ensures Walk(s, pos, end, Step(names), START).finished
    ensures Walk(s, pos, end, Step(names), START).state.bootargs == Last(ChosenArgs(names, root.kids), None)
  {
    BlobInner(before, root, after);
    WalksBlock(s, pos, end, Step(names), START, BlobTokens(before, root, after));
    FoldsBlob(Step(names), START, before, root, after);
    var s1 := START.(depth := 1);
    var s3 := s1.(bootargs := Last(ChosenArgs(names, root.kids), None));
    FoldsProps(names, s1, root.props);
    FoldsTopForest(names, s1, root.kids);
    FoldsParts(names, START, root, s1, s1, s3);
  }

  // ---------------------------------------------------------------- only what the names mean counts

  lemma {:induction false} SameArgsOf(names: Names, names': Names, props: seq<Item>)
    requires forall off :: names(off) == names'(off)
    ensures ArgsOf(names, props) == ArgsOf(names', props)
    decreases |props|
  {
    if props != [] {
      SameArgsOf(names, names', props[1..]);
    }
  }

  lemma {:induction false} SameArgsIn(names: Names, names': Names, n: Node)
    requires forall off :: names(off) == names'(off)
    ensures ArgsIn(names, n) == ArgsIn(names', n)
    decreases n
  {
    SameArgsOf(names, names', n.props);
    SameArgs(names, names', n.kids);
  }

  lemma {:induction false} SameArgs(names: Names, names': Names, f: Forest)
    requires forall off :: names(off) == names'(off)
    ensures ArgsInForest(names, f) == ArgsInForest(names', f) && ChosenArgs(names, f) == ChosenArgs(names', f)
    decreases f
  {
    match f {
      case Nil =>
      case Skip(rest) => SameArgs(names, names', rest);
      case Kid(n, rest) =>
        SameArgsIn(names, names', n);
        SameArgs(names, names', rest);
    }
  }

  // ---------------------------------------------------------------- no-ops change nothing

  lemma {:induction false} ArgsOfAppend(names: Names, ps: seq<Item>, qs: seq<Item>)
    ensures ArgsOf(names, ps + qs) == ArgsOf(names, ps) + ArgsOf(names, qs)
    decreases |ps|
  {
    if ps == [] {
      assert ps + qs == qs;
    } else {
      assert (ps + qs)[1..] == ps[1..] + qs;
      ArgsOfAppend(names, ps[1..], qs);
    }
  }

  lemma {:induction false} ArgsOfStripped(names: Names, props: seq<Item>)
    ensures ArgsOf(names, StripItems(props)) == ArgsOf(names, props)
    decreases |props|
  {
    if props != [] {
      var init, last := props[..|props| - 1], props[|props| - 1];
      assert props == init + [last];
      ArgsOfStripped(names, init);
      ArgsOfAppend(names, init, [last]);
      ArgsOfAppend(names, StripItems(init), if last.NopItem? then [] else [last]);
      assert [last][1..] == [];
    }
  }

  lemma {:induction false} ArgsInStripped(names: Names, n: Node)
    ensures ArgsIn(names, Strip(n)) == ArgsIn(names, n)
    decreases n
  {
    ArgsOfStripped(names, n.props);
    NopsChangeNoArgs(names, n.kids);
  }

  lemma {:induction false} NopsChangeNoArgs(names: Names, f: Forest)
    ensures ArgsInForest(names, StripForest(f)) == ArgsInForest(names, f)
    ensures ChosenArgs(names, StripForest(f)) == ChosenArgs(names, f)
    decreases f
  {
    match f {
      case Nil =>
      case Skip(rest) => NopsChangeNoArgs(names, rest);
      case Kid(n, rest) =>
        ArgsInStripped(names, n);
        NopsChangeNoArgs(names, rest);
    }
  }
}
