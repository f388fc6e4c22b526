/** The device registry: a list of at most 128 devices, the hierarchy built over it, and the order in which the
    tree is printed. Devices are named by their index in the static array that holds them. */
module DeviceTree {
  import opened Links
  import opened Wrappers

  const CAPACITY: nat := 128

  /** What an enumerator reports. */
  datatype Info = Info(name: Option<string>, compatible: Option<string>, regBase: nat, regSize: nat, vendor: nat,
                       device: nat, bus: nat, deviceNum: nat, function_: nat, depth: int)

  datatype Node = Node(info: Info, parent: Option<nat>, firstChild: Option<nat>, nextSibling: Option<nat>, next: Option<nat>)

  // ---------------------------------------------------------------- the hierarchy and its order

  /** The first device of depth 0. */
  function Root(ds: seq<Info>): (r: Option<nat>)
    ensures r.Some? ==> r.value < |ds| && ds[r.value].depth == 0 && forall k | 0 <= k < r.value :: ds[k].depth != 0
    ensures r.None? ==> forall k | 0 <= k < |ds| :: ds[k].depth != 0
  {
    RootFrom(ds, 0)
  }

  function RootFrom(ds: seq<Info>, i: nat): (r: Option<nat>)
    requires i <= |ds| && forall k | 0 <= k < i :: ds[k].depth != 0
    ensures r.Some? ==> i <= r.value < |ds| && ds[r.value].depth == 0 && forall k | 0 <= k < r.value :: ds[k].depth != 0
    ensures r.None? ==> forall k | 0 <= k < |ds| :: ds[k].depth != 0
    decreases |ds| - i
  {
    if i == |ds| then None else if ds[i].depth == 0 then Some(i) else RootFrom(ds, i + 1)
  }

  /** The devices of depth 1 among the first `n`, in list order. */
  function Kids(ds: seq<Info>, n: nat): seq<nat>
    requires n <= |ds|
  {
    if n == 0 then [] else Kids(ds, n - 1) + if ds[n - 1].depth == 1 then [n - 1] else []
  }

  /** How often `x` occurs. */
  function Occurrences(s: seq<nat>, x: nat): nat {
    if s == [] then 0 else (if s[0] == x then 1 else 0) + Occurrences(s[1..], x)
  }

  lemma {:induction false} OccurrencesAppend(a: seq<nat>, b: seq<nat>, x: nat)
    ensures Occurrences(a + b, x) == Occurrences(a, x) + Occurrences(b, x)
    decreases |a|
  {
    if a == [] {
      assert a + b == b;
    } else {
      assert (a + b)[1..] == a[1..] + b;
      OccurrencesAppend(a[1..], b, x);
    }
  }

  lemma OccurrencesOne(y: nat, x: nat)
    ensures Occurrences([y], x) == if y == x then 1 else 0
  {
    assert [y][1..] == [];
  }

  lemma {:induction false} OccurrencesIn(s: seq<nat>, x: nat)
    ensures Occurrences(s, x) > 0 <==> x in s
    decreases |s|
  {
    if s != [] {
      OccurrencesIn(s[1..], x);
      assert x in s <==> x == s[0] || x in s[1..];
    }
  }

  lemma {:induction false} KidsMember(ds: seq<Info>, n: nat, i: nat)
    requires n <= |ds| && i < |ds|
    ensures Occurrences(Kids(ds, n), i) == if i < n && ds[i].depth == 1 then 1 else 0
  {
    KidsStep(ds, n);
    hide Kids;
    if n > 0 {
      KidsMember(ds, n - 1, i);
      OccurrencesAppend(Kids(ds, n - 1), [n - 1], i);
      OccurrencesOne(n - 1, i);
    }
  }

  lemma KidsStep(ds: seq<Info>, n: nat)
    requires n <= |ds|
    ensures n == 0 ==> Kids(ds, n) == []
    ensures n > 0 ==> Kids(ds, n) == if ds[n - 1].depth == 1 then Kids(ds, n - 1) + [n - 1] else Kids(ds, n - 1)
  {}

  ghost predicate Ascending(ks: seq<nat>) {
    forall i, j | 0 <= i < j < |ks| :: ks[i] < ks[j]
  }

  lemma {:induction false} KidsAscend(ds: seq<Info>, n: nat)
    requires n <= |ds|
    ensures Ascending(Kids(ds, n)) && forall k | 0 <= k < |Kids(ds, n)| :: Kids(ds, n)[k] < n
  {
    KidsStep(ds, n);
    hide Kids;
    if n > 0 {
      KidsAscend(ds, n - 1);
    }
  }

  /** What is printed for the list's device `i` at the top level. */
  function TopLevel(ds: seq<Info>, i: nat): seq<nat>
    requires i < |ds|
  {
    if Root(ds).None? then [i]
    else if ds[i].depth == 1 then []
    else if Root(ds) == Some(i) then [i] + Kids(ds, |ds|)
    else [i]
  }

  /** The devices in the order they are printed, those of the list's first `n`. */
  function Printed(ds: seq<Info>, n: nat): seq<nat>
    requires n <= |ds|
  {
    if n == 0 then [] else Printed(ds, n - 1) + TopLevel(ds, n - 1)
  }

  lemma {:induction false} TopLevelCount(ds: seq<Info>, n: nat, i: nat)
    requires n < |ds| && i < |ds|
    ensures Occurrences(TopLevel(ds, n), i) ==
            if Root(ds).Some? && ds[i].depth == 1 then (if Root(ds).value == n then 1 else 0)
            else if i == n then 1 else 0
  {
    hide Root, Kids;
    assert Root(ds).Some? ==> ds[Root(ds).value].depth == 0;
    OccurrencesOne(n, i);
    KidsMember(ds, |ds|, i);
    OccurrencesAppend([n], Kids(ds, |ds|), i);
  }

  lemma {:induction false} PrintedCount(ds: seq<Info>, n: nat, i: nat)
    requires n <= |ds| && i < |ds|
    ensures Occurrences(Printed(ds, n), i) ==
            if Root(ds).Some? && ds[i].depth == 1 then (if Root(ds).value < n then 1 else 0)
            else if i < n then 1 else 0
  {
    hide Root, TopLevel;
    if n > 0 {
      PrintedCount(ds, n - 1, i);
      OccurrencesAppend(Printed(ds, n - 1), TopLevel(ds, n - 1), i);
      TopLevelCount(ds, n - 1, i);
    }
  }

  /** Every registered device is printed exactly once, with or without a root. */
  lemma {:induction false} PrintedExactlyOnce(ds: seq<Info>, i: nat)
    requires i < |ds|
    ensures Occurrences(Printed(ds, |ds|), i) == 1
  {
    PrintedCount(ds, |ds|, i);
  }

  /** Nothing else is printed. */
  lemma {:induction false} PrintsRegistered(ds: seq<Info>, n: nat)
    requires n <= |ds|
    ensures forall k | 0 <= k < |Printed(ds, n)| :: Printed(ds, n)[k] < |ds|
  {
    if n > 0 {
      PrintsRegistered(ds, n - 1);
      KidsAscend(ds, |ds|);
    }
  }

  // ---------------------------------------------------------------- the links

  /** The flat list runs through the array in order. */
  ghost predicate Listed(s: seq<Node>, head: Option<nat>) {
    && head == (if s == [] then None else Some(0))
    && forall i | 0 <= i < |s| :: s[i].next == if i + 1 < |s| then Some(i + 1) else None
  }

  ghost predicate Unlinked(n: Node) {
    n.parent.None? && n.firstChild.None? && n.nextSibling.None?
  }

  function Infos(s: seq<Node>): (ds: seq<Info>)
    ensures |ds| == |s| && forall i | 0 <= i < |s| :: ds[i] == s[i].info
  {
    seq(|s|, i requires 0 <= i < |s| => s[i].info)
  }

  /** The `k`th child: below `r`, before the next one. */
  ghost predicate KidLinked(s: seq<Node>, r: nat, kids: seq<nat>, k: nat)
    requires k < |kids|
  {
    && kids[k] < |s| && s[kids[k]].parent == Some(r) && s[kids[k]].firstChild.None?
    && s[kids[k]].nextSibling == Link(kids, k)
  }

  /** The root starts the chain; the devices off it are not linked. */
  ghost predicate RestUnlinked(s: seq<Node>, r: nat, kids: seq<nat>) {
    && r < |s| && r !in kids
    && s[r].parent.None? && s[r].nextSibling.None? && s[r].firstChild == Link(kids, -1)
    && (forall i | 0 <= i < |s| && i != r && i !in kids :: Unlinked(s[i]))
  }

  /** The chain `kids` hangs below `root`; nothing else is linked. */
  ghost predicate Hangs(s: seq<Node>, root: nat, kids: seq<nat>) {
    RestUnlinked(s, root, kids) && forall k | 0 <= k < |kids| :: KidLinked(s, root, kids, k)
  }

  /** The hierarchy over a list: all of depth 1 below the first of depth 0, or no links at all. */
  ghost predicate Built(s: seq<Node>, root: Option<nat>) {
    && root == Root(Infos(s))
    && if root.Some? then Hangs(s, root.value, Kids(Infos(s), |s|)) else forall i | 0 <= i < |s| :: Unlinked(s[i])
  }

  /** The same devices in the same list. */
  ghost predicate SameList(s: seq<Node>, s': seq<Node>) {
    |s'| == |s| && forall i | 0 <= i < |s| :: s'[i].info == s[i].info && s'[i].next == s[i].next
  }

  lemma HeadIs(s: seq<Node>, head: Option<nat>)
    requires Listed(s, head)
    ensures head == (if s == [] then None else Some(0)) && SameList(s, s)
  {}

  lemma HangsNone(s: seq<Node>, r: nat)
    requires r < |s| && forall i | 0 <= i < |s| :: Unlinked(s[i])
    ensures Hangs(s, r, [])
  {}

  lemma FirstIffNone(s: seq<Node>, r: nat, kids: seq<nat>, c: nat)
    requires Hangs(s, r, kids) && c < |s| && c != r && forall k | 0 <= k < |kids| :: kids[k] < c
    ensures c !in kids && Unlinked(s[c])
    ensures r < |s| && r !in kids && (s[r].firstChild.None? <==> kids == [])
    ensures forall k | 0 <= k < |kids| :: kids[k] < |s|
  {}

  lemma SameListed(s: seq<Node>, s': seq<Node>, head: Option<nat>)
    requires Listed(s, head) && SameList(s, s')
    ensures Listed(s', head)
  {}

  /** What the walk along the list reads. */
  lemma Onward(s0: seq<Node>, s: seq<Node>, head: Option<nat>, c: nat)
    requires Listed(s, head) && SameList(s0, s) && c < |s|
    ensures s[c].info == Infos(s0)[c] && s[c].next == if c + 1 < |s| then Some(c + 1) else None
  {}

  lemma SameInfos(s: seq<Node>, s': seq<Node>)
    requires SameList(s, s')
    ensures Infos(s') == Infos(s)
  {}

  lemma SameListAgain(s: seq<Node>, s': seq<Node>, s'': seq<Node>)
    requires SameList(s, s') && SameList(s', s'')
    ensures SameList(s, s'')
  {}

  /** The children chain of each device, and what follows each child on its chain. */
  lemma {:induction false} Chains(s: seq<Node>, root: Option<nat>, i: nat)
    requires Built(s, root) && i < |s|
    ensures var kids := Kids(Infos(s), |s|);
            && s[i].firstChild == (if root == Some(i) then Link(kids, -1) else None)
            && (root == Some(i) ==> forall k | 0 <= k < |kids| ::
                  kids[k] < |s| && root != Some(kids[k]) && s[kids[k]].nextSibling == Link(kids, k))
  {
    if root.Some? && i != root.value {
      var kids := Kids(Infos(s), |s|);
      if i in kids {
        var k :| 0 <= k < |kids| && kids[k] == i;
        assert KidLinked(s, root.value, kids, k);
      } else {
        assert Unlinked(s[i]);
      }
    }
    if root == Some(i) {
      var kids := Kids(Infos(s), |s|);
      forall k | 0 <= k < |kids|
        ensures kids[k] < |s| && root != Some(kids[k]) && s[kids[k]].nextSibling == Link(kids, k)
      {
        assert KidLinked(s, i, kids, k) && kids[k] in kids;
      }
    }
  }

  /** Device `c` appended to the chain below `r` whose last device is `last`. */
  function WithKid(s: seq<Node>, r: nat, last: Option<nat>, c: nat): (s': seq<Node>)
    requires c < |s| && r < |s| && (last.Some? ==> last.value < |s|)
    ensures |s'| == |s|
  {
    var s1 := s[c := s[c].(parent := Some(r))];
    match last
    case None => s1[r := s1[r].(firstChild := Some(c))]
    case Some(l) => s1[l := s1[l].(nextSibling := Some(c))]
  }

  /** The loop that links the devices of depth 1 below `r`, turned from `s` to `now`, has come to device `i`. */
  ghost predicate Linking(s: seq<Node>, now: seq<Node>, r: nat, i: nat, kids: seq<nat>, last: Option<nat>) {
    SameList(s, now) && i <= |s| && kids == Kids(Infos(s), i) && Hangs(now, r, kids) && last == LastOf(kids)
  }

  function LastOf(kids: seq<nat>): Option<nat> {
    if kids == [] then None else Some(kids[|kids| - 1])
  }

  lemma {:induction false} WithKidAt(s: seq<Node>, r: nat, last: Option<nat>, c: nat, k: nat)
    requires c < |s| && r < |s| && c != r && k < |s| && (last.Some? ==> last.value < |s| && last.value != c)
    ensures WithKid(s, r, last, c)[k] ==
            if k == c then s[k].(parent := Some(r))
            else if last.None? && k == r then s[k].(firstChild := Some(c))
            else if last == Some(k) then s[k].(nextSibling := Some(c))
            else s[k]
  {}

  lemma {:induction false} LastInside(s: seq<Node>, r: nat, kids: seq<nat>)
    requires Hangs(s, r, kids)
    ensures r < |s| && (kids != [] ==> kids[|kids| - 1] in kids && kids[|kids| - 1] < |s|)
    ensures LastOf(kids).Some? ==> LastOf(kids).value < |s| && LastOf(kids).value in kids && LastOf(kids).value != r
  {
    if kids != [] {
      assert KidLinked(s, r, kids, |kids| - 1) && kids[|kids| - 1] in kids;
    }
  }

  lemma {:induction false} WithKidLinks(s: seq<Node>, r: nat, kids: seq<nat>, c: nat, k: nat)
    requires Hangs(s, r, kids) && Ascending(kids) && c < |s| && c != r && c !in kids && k < |kids + [c]|
    ensures LastOf(kids).Some? ==> LastOf(kids).value < |s|
    ensures KidLinked(WithKid(s, r, LastOf(kids), c), r, kids + [c], k)
  {
    LastInside(s, r, kids);
    if k < |kids| {
      assert KidLinked(s, r, kids, k) && kids[k] in kids;
      WithKidAt(s, r, LastOf(kids), c, kids[k]);
    } else {
      WithKidAt(s, r, LastOf(kids), c, c);
    }
  }

  lemma {:induction false} WithKidHangs(s: seq<Node>, r: nat, kids: seq<nat>, c: nat)
    requires Hangs(s, r, kids) && Ascending(kids) && c < |s| && c != r && c !in kids && Unlinked(s[c])
    ensures LastOf(kids).Some? ==> LastOf(kids).value < |s|
    ensures Hangs(WithKid(s, r, LastOf(kids), c), r, kids + [c])
  {
    hide KidLinked, RestUnlinked, WithKid, Link, Ascending, Unlinked;
    LastInside(s, r, kids);
    var kids', s' := kids + [c], WithKid(s, r, LastOf(kids), c);
    WithKidRest(s, r, kids, c);
    forall k | 0 <= k < |kids'|
      ensures KidLinked(s', r, kids', k)
    {
      WithKidLinks(s, r, kids, c, k);
    }
  }

  lemma {:induction false} WithKidRest(s: seq<Node>, r: nat, kids: seq<nat>, c: nat)
    requires Hangs(s, r, kids) && c < |s| && c != r && c !in kids
    ensures r < |s| && (LastOf(kids).Some? ==> LastOf(kids).value < |s|)
    ensures RestUnlinked(WithKid(s, r, LastOf(kids), c), r, kids + [c])
  {
    LastInside(s, r, kids);
    var kids', s' := kids + [c], WithKid(s, r, LastOf(kids), c);
    hide WithKid;
    WithKidAt(s, r, LastOf(kids), c, r);
    assert Link(kids', -1) == if kids == [] then Some(c) else Link(kids, -1);
    forall i | 0 <= i < |s| && i != r && i !in kids'
      ensures Unlinked(s'[i])
    {
      assert kids' == kids + [c];
      WithKidAt(s, r, LastOf(kids), c, i);
    }
  }

  lemma WithKidSameList(s: seq<Node>, r: nat, last: Option<nat>, c: nat)
    requires c < |s| && r < |s| && (last.Some? ==> last.value < |s|)
    ensures SameList(s, WithKid(s, r, last, c))
  {}

  /** What is printed at the top level, by the links. */
  lemma {:induction false} TopLevelIs(s: seq<Node>, root: Option<nat>, i: nat)
    requires Built(s, root) && i < |s|
    ensures TopLevel(Infos(s), i) ==
            if root.Some? && s[i].parent.Some? then []
            else if root == Some(i) then [i] + Kids(Infos(s), |s|) else [i]
  {
    hide Kids, Hangs;
    ParentIff(s, root, i);
  }

  // ---------------------------------------------------------------- the code

  class Registry {
    const storage: array<Node>
    var count: nat
    var head: Option<nat>
    var root: Option<nat>

    ghost function Nodes(): seq<Node>
      requires count <= storage.Length
      reads this, storage
    {
      storage[..count]
    }

    ghost predicate Valid()
      reads this, storage
    {
      storage.Length == CAPACITY && count <= CAPACITY && Listed(Nodes(), head)
    }

    constructor (storage: array<Node>)
      requires storage.Length == CAPACITY
      ensures Valid() && count == 0 && root == None && this.storage == storage
    {
      this.storage, count, head, root := storage, 0, None, None;
    }

    /** `add_device_to_registry`: appended at the end of the list, unless there are 128. */
    method Add(d: Info)
      requires Valid()
      modifies this, storage
      ensures Valid() && root == old(root)
      ensures Nodes() == old(Nodes()) || old(count) < 128
      ensures old(count) < 128 ==> Infos(Nodes()) == Infos(old(Nodes())) + [d] && Unlinked(Nodes()[old(count)])
      ensures forall i | 0 <= i < old(count) :: Nodes()[i] == old(Nodes()[i]).(next := Nodes()[i].next)
      ensures count == if old(count) < 128 then old(count) + 1 else old(count)
    {
      if count >= CAPACITY { return; }
      storage[count] := Node(d, None, None, None, None);
      if head.None? {
        head := Some(count);
      } else {
        var current := head.value;
        while storage[current].next.Some?
          invariant current < count
          decreases count - current
        {
          current := storage[current].next.value;
        }
        storage[current] := storage[current].(next := Some(count));
      }
      count := count + 1;
    }

    /** The search for the first device of depth 0. */
    method FindRoot() returns (r: Option<nat>)
      requires Valid()
      ensures r == Root(Infos(Nodes()))
    {
      ghost var ds, i := Infos(Nodes()), 0;
      var current := head;
      while current.Some?
        invariant i <= count && current == (if i < count then Some(i) else None)
        invariant forall k | 0 <= k < i :: ds[k].depth != 0
        decreases count - i
      {
        if storage[current.value].info.depth == 0 { return current; }
        current := storage[current.value].next;
        i := i + 1;
      }
      r := None;
    }

    /** `build_tree_hierarchy` after a first scan. */
    method BuildTree()
      requires Valid() && root == None && forall i | 0 <= i < count :: Unlinked(Nodes()[i])
      modifies this, storage
      ensures Valid() && SameList(old(Nodes()), Nodes()) && Built(Nodes(), root)
      ensures count == old(count) && head == old(head)
    {
      root := FindRoot();
      if root.Some? {
        LinkKids(root.value);
      }
    }

    /** The loop that links the devices of depth 1 below the root. */
    method LinkKids(r: nat)
      requires Valid() && Root(Infos(Nodes())) == Some(r) && forall i | 0 <= i < count :: Unlinked(Nodes()[i])
      modifies storage
      ensures Valid() && SameList(old(Nodes()), Nodes()) && Hangs(Nodes(), r, Kids(Infos(Nodes()), count))
    {
      ghost var s, ds := Nodes(), Infos(Nodes());
      ghost var kids: seq<nat> := [];
      ghost var i := 0;
      HangsNone(s, r);
      KidsStep(ds, 0);
      assert ds[r].depth == 0;
      HeadIs(s, head);
      var current := head;
      var lastChild: Option<nat> := None;
      assert lastChild == LastOf(kids);
      hide Hangs, Kids, Root, WithKid, Listed, SameList, Infos, LastOf;
      while current.Some?
        invariant i <= count && current == (if i < count then Some(i) else None)
        invariant Valid() && Linking(s, Nodes(), r, i, kids, lastChild)
        decreases count - i
      {
        hide Linking;
        var c := current.value;
        lastChild, kids := VisitKid(s, r, c, lastChild, kids);
        current := storage[c].next;
        i := i + 1;
      }
      SameInfos(s, Nodes());
    }

    /** One turn of the loop. */
    method VisitKid(ghost s: seq<Node>, r: nat, c: nat, lastChild: Option<nat>, ghost kids: seq<nat>)
      returns (last: Option<nat>, ghost kids': seq<nat>)
      requires Valid() && c < count == |s| && r < count && s[r].info.depth == 0
      requires Linking(s, Nodes(), r, c, kids, lastChild)
      modifies storage
      ensures Valid() && Linking(s, Nodes(), r, c + 1, kids', last)
      ensures storage[c].next == if c + 1 < count then Some(c + 1) else None
    {
      hide Hangs, Kids, WithKid, Listed, SameList, Infos;
      ghost var now := Nodes();
      Onward(s, now, head, c);
      KidsStep(Infos(s), c + 1);
      KidsAscend(Infos(s), c);
      last, kids' := lastChild, kids;
      if storage[c].info.depth == 1 && c != r {
        FirstIffNone(now, r, kids, c);
        WithKidHangs(now, r, kids, c);
        WithKidSameList(now, r, lastChild, c);
        last := LinkKid(r, c, lastChild);
        SameListAgain(s, now, Nodes());
        SameListed(now, Nodes(), head);
        kids' := kids + [c];
      }
      Onward(s, Nodes(), head, c);
    }

    /** One device of depth 1. */
    method LinkKid(r: nat, c: nat, lastChild: Option<nat>) returns (last: Option<nat>)
      requires storage.Length == CAPACITY && count <= CAPACITY && c < count && r < count && c != r
      requires lastChild.Some? ==> lastChild.value < count
      requires Nodes()[r].firstChild.None? <==> lastChild.None?
      modifies storage
      ensures Nodes() == WithKid(old(Nodes()), r, lastChild, c) && last == Some(c)
    {
      storage[c] := storage[c].(parent := Some(r));
      last := lastChild;
      if storage[r].firstChild.None? {
        storage[r] := storage[r].(firstChild := Some(c));
        last := Some(c);
      } else if lastChild.Some? {
        storage[lastChild.value] := storage[lastChild.value].(nextSibling := Some(c));
        last := Some(c);
      }
    }

    /** `devices_scan`: what was enumerated first, at most 128 devices, in order, and the hierarchy over it. */
    method Scan(found: seq<Info>)
      requires Valid() && count == 0 && root == None
      modifies this, storage
      ensures Valid() && Built(Nodes(), root)
      ensures Infos(Nodes()) == if |found| <= 128 then found else found[..128]
    {
      for i := 0 to |found|
        invariant Valid() && root == None && count == (if i < CAPACITY then i else CAPACITY)
        invariant Infos(Nodes()) == found[..count]
        invariant forall k | 0 <= k < count :: Unlinked(Nodes()[k])
      {
        Add(found[i]);
      }
      assert found[..|found|] == found;
      BuildTree();
    }

    /** `print_device`, as the devices it visits: the device and the chain below it, which has no chain further
        below. */
    method PrintDevice(i: nat, indent: nat) returns (visited: seq<nat>)
      requires Valid() && Built(Nodes(), root) && i < count
      ensures visited == if root == Some(i) then [i] + Kids(Infos(Nodes()), count) else [i]
      decreases if root == Some(i) then 1 else 0
    {
      Chains(Nodes(), root, i);
      hide Built, Listed, Kids, Infos;
      visited := [i];
      ghost var kids := if root == Some(i) then Kids(Infos(Nodes()), count) else [];
      ghost var k := 0;
      var child := storage[i].firstChild;
      while child.Some?
        invariant k <= |kids| && child == Link(kids, k - 1) && visited == [i] + kids[..k]
        decreases |kids| - k
      {
        var below := PrintDevice(child.value, indent + 1);
        VisitedNext(i, kids, k);
        visited := visited + below;
        child := storage[child.value].nextSibling;
        k := k + 1;
      }
      assert kids[..|kids|] == kids;
    }

    lemma VisitedNext(i: nat, kids: seq<nat>, k: nat)
      requires k < |kids|
      ensures [i] + kids[..k] + [kids[k]] == [i] + kids[..k + 1]
    {}

    /** `device_tree_print`: the devices in the order printed. */
    method PrintTree() returns (visited: seq<nat>)
      requires Valid() && Built(Nodes(), root)
      ensures visited == Printed(Infos(Nodes()), count)
    {
      hide Built, Kids, TopLevel, Root;
      visited := [];
      ghost var ds, n := Infos(Nodes()), 0;
      var current := head;
      while current.Some?
        invariant n <= count && current == (if n < count then Some(n) else None)
        invariant visited == Printed(ds, n)
        decreases count - n
      {
        TopLevelIs(Nodes(), root, current.value);
        if root.None? || storage[current.value].parent.None? {
          var part := PrintDevice(current.value, 0);
          visited := visited + part;
        }
        current := storage[current.value].next;
        n := n + 1;
      }
    }
  }

  /** In a built hierarchy with a root, exactly the devices of depth 1 have a parent. */
  lemma {:induction false} ParentIff(s: seq<Node>, root: Option<nat>, i: nat)
    requires Built(s, root) && i < |s|
    ensures root.Some? ==> (s[i].parent.Some? <==> s[i].info.depth == 1)
  {
    if root.Some? {
      var kids := Kids(Infos(s), |s|);
      KidsMember(Infos(s), |s|, i);
      OccurrencesIn(kids, i);
      if i in kids {
        var k :| 0 <= k < |kids| && kids[k] == i;
        assert KidLinked(s, root.value, kids, k);
      }
    }
  }
}
