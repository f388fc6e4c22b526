/** The `app=` parameters of the command line: which tokens are visited, and which applications they start. */
module InitApps {
  import opened CmdLine
  import opened Wrappers

  /** A parameter name or value: neither blank nor terminator in it. */
  predicate Word(w: string) {
    forall k | 0 <= k < |w| :: !IsBlank(w[k]) && w[k] != '\0'
  }

  /** The token is the parameter, alone or with a value. */
  predicate Names(token: string, param: string) {
    token == param || param + "=" <= token
  }

  /** The text behind the first `=`, if there is one. */
  function ValueOf(token: string): Option<string> {
    var e := EqualsAt(token);
    if e < |token| then Some(token[e + 1..]) else None
  }

  /** The tokens that name the parameter, in order. */
  function Naming(s: string, ts: seq<Span>, param: string): (r: seq<Span>)
    requires Bounded(s, ts)
    ensures Bounded(s, r)
  {
    if ts == [] then []
    else (if Names(s[ts[0].start..ts[0].end], param) then [ts[0]] else []) + Naming(s, ts[1..], param)
  }

  /** The naming tokens from position `i` on. */
  function NamingFrom(s: string, i: nat, param: string): (r: seq<Span>)
    requires i <= |s|
    ensures Bounded(s, r)
  {
    TokensBounded(s, i);
    Naming(s, Tokens(s, i), param)
  }

  lemma {:induction false} NamingMember(s: string, ts: seq<Span>, param: string, t: Span)
    requires Bounded(s, ts)
    ensures t in Naming(s, ts, param) <==> t in ts && Names(s[t.start..t.end], param)
    decreases |ts|
  {
    hide Names;
    if ts != [] {
      NamingMember(s, ts[1..], param, t);
      assert t in ts <==> t == ts[0] || t in ts[1..];
    }
  }

  ghost predicate Ordered(ts: seq<Span>) {
    forall j, k | 0 <= j < k < |ts| :: ts[j].end < ts[k].start
  }

  lemma {:induction false} NamingOrdered(s: string, ts: seq<Span>, param: string)
    requires Bounded(s, ts) && Ordered(ts)
    ensures Ordered(Naming(s, ts, param))
    decreases |ts|
  {
    hide Names;
    if ts != [] {
      var r := Naming(s, ts[1..], param);
      NamingOrdered(s, ts[1..], param);
      forall k | 0 <= k < |r|
        ensures ts[0].end < r[k].start
      {
        NamingMember(s, ts[1..], param, r[k]);
      }
    }
  }

  /** Every maximal run of the line that names the parameter is visited, in order and once, and nothing else. */
  lemma {:induction false} VisitsExactly(s: string, param: string, t: Span)
    ensures t in NamingFrom(s, 0, param) <==> Maximal(s, t) && Names(s[t.start..t.end], param)
    ensures Ordered(NamingFrom(s, 0, param))
  {
    hide Names, Maximal, Naming, Tokens;
    TokensAreRuns(s, 0);
    TokensBounded(s, 0);
    NamingMember(s, Tokens(s, 0), param, t);
    NamingOrdered(s, Tokens(s, 0), param);
    if t in Tokens(s, 0) {
      var k :| 0 <= k < |Tokens(s, 0)| && Tokens(s, 0)[k] == t;
    }
  }

  /** The test of `find_param` on a token. */
  lemma {:induction false} TestsName(s: string, pos: nat, param: string)
    requires CString(s) && pos <= |s| && Word(param)
    ensures && HasPrefixAt(s, pos, param)
            && (var c := At(s, pos + |param|); c == '=' || c == '\0' || IsBlank(c))
            <==> Names(s[pos..TokenEnd(s, pos)], param)
  {
    var token := s[pos..TokenEnd(s, pos)];
    PrefixInToken(s, pos, param);
    if param <= token {
      assert |param| < |token| ==> token[|param|] == s[pos + |param|];
      assert |param| == |token| ==> pos + |param| == TokenEnd(s, pos);
      assert |token| > |param| ==> (param + "=" <= token <==> token[|param|] == '=');
      assert |token| == |param| ==> token == param;
    }
  }

  /** `find_param` from a position on: the first token that names the parameter. */
  method FindParam(s: string, start: nat, param: string) returns (r: Option<nat>)
    requires CString(s) && start <= |s| && Word(param) && param != ""
    ensures r.None? <==> NamingFrom(s, start, param) == []
    ensures r.Some? ==> r.value < |s| && NamingFrom(s, start, param)[0] == Span(r.value, TokenEnd(s, r.value))
    ensures r.Some? ==> NamingFrom(s, start, param)[1..] == NamingFrom(s, TokenEnd(s, r.value), param)
  {
    hide Names;
    var pos := start;
    while pos < |s|
      invariant start <= pos <= |s| && NamingFrom(s, pos, param) == NamingFrom(s, start, param)
    {
      var before := pos;
      while pos < |s| && IsBlank(s[pos])
        invariant before <= pos <= |s| && SkipBlanks(s, pos) == SkipBlanks(s, before)
      {
        pos := pos + 1;
      }
      FirstNaming(s, before, pos, param);
      TestsName(s, pos, param);
      if HasPrefixAt(s, pos, param) {
        var c := At(s, pos + |param|);
        if c == '=' || c == '\0' || IsBlank(c) { return Some(pos); }
      }
      pos := EndOfToken(s, pos);
    }
    r := None;
  }

  /** How the naming tokens from `i` on start, `a` being where the blanks end. */
  lemma {:induction false} FirstNaming(s: string, i: nat, a: nat, param: string)
    requires i <= |s| && a == SkipBlanks(s, i) && Word(param) && param != ""
    ensures TokenEnd(s, a) <= |s|
    ensures var rest := NamingFrom(s, TokenEnd(s, a), param);
            NamingFrom(s, i, param) ==
            if Names(s[a..TokenEnd(s, a)], param) then [Span(a, TokenEnd(s, a))] + rest else rest
  {
    TokensBounded(s, i);
    TokensBounded(s, TokenEnd(s, a));
    if a < |s| {
      assert Tokens(s, i)[1..] == Tokens(s, TokenEnd(s, a));
    } else {
      assert s[a..TokenEnd(s, a)] == "";
    }
  }

  /** `find_next_param` */
  method FindNextParam(s: string, start: nat, param: string) returns (r: Option<nat>)
    requires CString(s) && start <= |s| && Word(param) && param != ""
    ensures var rest := NamingFrom(s, TokenEnd(s, start), param);
            && (r.None? <==> rest == [])
            && (r.Some? ==> r.value < |s| && rest[0] == Span(r.value, TokenEnd(s, r.value)))
            && (r.Some? ==> rest[1..] == NamingFrom(s, TokenEnd(s, r.value), param))
  {
    var pos := EndOfToken(s, start);
    r := FindParam(s, pos, param);
  }

  /** `param_has_value`: exactly when the text behind the token's first `=` is the value. */
  method ParamHasValue(s: string, start: nat, value: string) returns (r: bool)
    requires CString(s) && start <= |s| && Word(value)
    ensures r <==> ValueOf(s[start..TokenEnd(s, start)]) == Some(value)
  {
    ghost var token := s[start..TokenEnd(s, start)];
    var pos := start;
    while pos < |s| && s[pos] != '=' && !IsBlank(s[pos])
      invariant start <= pos <= TokenEnd(s, start) && forall k | start <= k < pos :: s[k] != '='
    {
      pos := pos + 1;
    }
    EqualsIs(token, pos - start);
    if At(s, pos) != '=' { return false; }
    pos := pos + 1;
    SameEnd(s, start, pos);
    assert token[pos - start..] == s[pos..TokenEnd(s, pos)];
    EndsProperly(s, pos, value);
    if HasPrefixAt(s, pos, value) {
      var next := At(s, pos + |value|);
      if next == '\0' || next == ' ' || next == '\t' { return true; }
    }
    r := false;
  }

  lemma {:induction false} EndsProperly(s: string, pos: nat, value: string)
    requires CString(s) && pos <= |s| && Word(value)
    ensures && HasPrefixAt(s, pos, value)
            && (var c := At(s, pos + |value|); c == '\0' || IsBlank(c))
            <==> s[pos..TokenEnd(s, pos)] == value
  {
    var text := s[pos..TokenEnd(s, pos)];
    PrefixInToken(s, pos, value);
    if value <= text {
      assert |value| < |text| ==> text[|value|] == s[pos + |value|];
      assert |value| == |text| ==> pos + |value| == TokenEnd(s, pos);
    }
  }

  /** The applications, in the order they are tried. */
  function Apps(): seq<string> {
    ["illegal-instruction", "random-software", "random-hardware", "mac-virtio-net", "mac-e1000", "mac-rtl8139",
     "mac-all", "arp-broadcast", "packet-print", "http-hello"]
  }

  /** What a token starts: the applications, one at most, whose name is its value. */
  function Started(token: string, apps: seq<string>): seq<string> {
    if apps == [] then []
    else (if ValueOf(token) == Some(apps[0]) then [apps[0]] else []) + Started(token, apps[1..])
  }

  function StartedBy(s: string, ts: seq<Span>): seq<string>
    requires Bounded(s, ts)
  {
    if ts == [] then [] else Started(s[ts[0].start..ts[0].end], Apps()) + StartedBy(s, ts[1..])
  }

  lemma {:induction false} StartsNamed(token: string, apps: seq<string>)
    requires forall i, j | 0 <= i < j < |apps| :: apps[i] != apps[j]
    ensures Started(token, apps) == match ValueOf(token) {
              case Some(v) => if v in apps then [v] else []
              case None => []
            }
    decreases |apps|
  {
    hide ValueOf;
    if apps != [] {
      StartsNamed(token, apps[1..]);
      assert apps[0] !in apps[1..];
    }
  }

  /** `init_apps`: the naming tokens are visited in order, once each; `started` is the applications run, taking
      each to return. */
  method InitApps(cmdline: Option<string>) returns (visited: seq<Span>, started: seq<string>)
    requires cmdline.Some? ==> CString(cmdline.value)
    ensures cmdline.None? ==> visited == [] && started == []
    ensures cmdline.Some? ==> visited == NamingFrom(cmdline.value, 0, "app")
    ensures cmdline.Some? ==> Bounded(cmdline.value, visited) && started == StartedBy(cmdline.value, visited)
  {
    hide Naming, NamingFrom, Started, Apps, Tokens;
    visited, started := [], [];
    if cmdline.None? { return; }
    var s := cmdline.value;
    ghost var all := NamingFrom(s, 0, "app");
    var param: Option<nat> := FindParam(s, 0, "app");
    while param.Some?
      invariant |visited| <= |all| && Bounded(s, visited) && visited == all[..|visited|] && started == StartedBy(s, visited)
      invariant param.None? <==> |visited| == |all|
      invariant param.Some? ==> param.value < |s| && all[|visited|] == Span(param.value, TokenEnd(s, param.value))
      invariant param.Some? ==> all[|visited| + 1..] == NamingFrom(s, TokenEnd(s, param.value), "app")
      decreases |all| - |visited|
    {
      var end := EndOfToken(s, param.value);
      var run := StartToken(s, param.value);
      StartedAppend(s, visited, Span(param.value, end));
      visited, started := visited + [Span(param.value, end)], started + run;
      param := FindNextParam(s, param.value, "app");
    }
  }

  lemma {:induction false} StartedAppend(s: string, ts: seq<Span>, t: Span)
    requires Bounded(s, ts) && t.start <= t.end <= |s|
    ensures StartedBy(s, ts + [t]) == StartedBy(s, ts) + Started(s[t.start..t.end], Apps())
    decreases |ts|
  {
    hide Started, Apps;
    if ts == [] {
      assert [t][1..] == [];
    } else {
      assert (ts + [t])[1..] == ts[1..] + [t];
      StartedAppend(s, ts[1..], t);
    }
  }

  /** The chain of tests on one token. */
  method StartToken(s: string, start: nat) returns (run: seq<string>)
    requires CString(s) && start <= |s|
    ensures run == Started(s[start..TokenEnd(s, start)], Apps())
  {
    AppsAreWords();
    hide ValueOf, Apps;
    var apps := Apps();
    ghost var token := s[start..TokenEnd(s, start)];
    run := [];
    for i := 0 to |apps|
      invariant run + Started(token, apps[i..]) == Started(token, apps)
    {
      assert apps[i..][1..] == apps[i + 1..];
      var has := ParamHasValue(s, start, apps[i]);
      if has { run := run + [apps[i]]; }
    }
    assert apps[|apps|..] == [];
  }

  lemma AppsAreWords()
    ensures forall i | 0 <= i < |Apps()| :: Word(Apps()[i])
  {}

  lemma AppsDistinct()
    ensures forall i, j | 0 <= i < j < |Apps()| :: Apps()[i] != Apps()[j]
  {}

  /** A token starts the application its value names, if there is one, and no other. */
  lemma {:induction false} TokenStarts(token: string)
    ensures Started(token, Apps()) == match ValueOf(token) {
              case Some(v) =>
                if v in ["illegal-instruction", "random-software", "random-hardware", "mac-virtio-net", "mac-e1000",
                         "mac-rtl8139", "mac-all", "arp-broadcast", "packet-print", "http-hello"] then [v] else []
              case None => []
            }
  {
    AppsDistinct();
    StartsNamed(token, Apps());
  }
}
