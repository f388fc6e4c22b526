/** Log levels: what tags registered and overrides configured in any order settle to. */
module LogLevels {
  import opened CmdLine
  import opened Wrappers

  const MAX_TAGS: nat := 32
  const MAX_OVERRIDES: nat := 16

  /** ERROR, WARN, INFO, DEBUG */
  type Level = l: int | 0 <= l < 4

  datatype Override = Override(name: string, level: Level)

  datatype Tag = Tag(name: string, level: Level)

  /** `global` is the level set for all tags, if one was; `defaults` are the levels tags were registered with. */
  datatype Logging = Logging(tags: seq<Tag>, defaults: seq<Level>, overrides: seq<Override>, global: Option<Level>)

  const UNCONFIGURED: Logging := Logging([], [], [], None)

  // ---------------------------------------------------------------- what a token asks for

  datatype Setting = Global(level: Level) | PerTag(name: string, level: Level) | Nothing

  function ParseLevel(s: string): Option<Level> {
    if s == "error" then Some(0) else if s == "warn" then Some(1)
    else if s == "info" then Some(2) else if s == "debug" then Some(3) else None
  }

  function SettingOf(token: string): Setting {
    if |token| > 4 && token[..4] == "log=" then
      match ParseLevel(token[4..]) {
        case Some(l) => Global(l)
        case None => Nothing
      }
    else if |token| >= 4 && token[..4] == "log." then
      var e := EqualsAt(token[4..]);
      if 0 < e < |token| - 4 then
        match ParseLevel(token[4..][e + 1..]) {
          case Some(l) => PerTag(token[4..][..e], l)
          case None => Nothing
        }
      else Nothing
    else Nothing
  }

  /** The names of the levels, least verbose first. */
  lemma LevelNames(s: string)
    ensures ParseLevel(s) == Some(0) <==> s == "error"
    ensures ParseLevel(s) == Some(1) <==> s == "warn"
    ensures ParseLevel(s) == Some(2) <==> s == "info"
    ensures ParseLevel(s) == Some(3) <==> s == "debug"
  {}

  /** `log=` and a level sets the global level; `log.`, a name without an equals sign, one, and a level sets that of the
      name; a token that starts with neither, or whose level is none, does nothing. */
  lemma {:induction false} SettingsMean(token: string, name: string, value: string)
    ensures SettingOf("log=" + value) == match ParseLevel(value) { case Some(l) => Global(l) case None => Nothing }
    ensures name != "" && '=' !in name ==>
              SettingOf("log." + name + "=" + value) ==
              match ParseLevel(value) { case Some(l) => PerTag(name, l) case None => Nothing }
    ensures '=' !in value ==> SettingOf("log." + value) == Nothing
    ensures SettingOf("log.=" + value) == Nothing
    ensures "log=" <= token || "log." <= token || SettingOf(token) == Nothing
  {
    hide ParseLevel;
    GlobalToken(value);
    if name != "" && '=' !in name {
      NamedToken(name, value);
    }
    NamelessToken(value);
  }

  lemma {:induction false} NamelessToken(value: string)
    ensures '=' !in value ==> SettingOf("log." + value) == Nothing
    ensures SettingOf("log.=" + value) == Nothing
  {
    var t, u := "log." + value, "log.=" + value;
    assert t[..4] == "log." && t[4..] == value;
    assert u[..4] == "log." && u[4..] == "=" + value;
    EqualsIs("=" + value, 0);
    if '=' !in value {
      EqualsIs(value, |value|);
    }
  }

  lemma {:induction false} GlobalToken(value: string)
    ensures SettingOf("log=" + value) == match ParseLevel(value) { case Some(l) => Global(l) case None => Nothing }
  {
    var t := "log=" + value;
    assert t[..4] == "log=" && t[4..] == value;
    if value == "" {
      LevelNames("");
    }
  }

  lemma {:induction false} NamedToken(name: string, value: string)
    requires name != "" && '=' !in name
    ensures SettingOf("log." + name + "=" + value)
         == match ParseLevel(value) { case Some(l) => PerTag(name, l) case None => Nothing }
  {
    var t := "log." + name + "=" + value;
    var rest := name + "=" + value;
    assert t == "log." + rest;
    assert t[..4] == "log." && t[4..] == rest;
    assert rest[|name|] == '=' && forall k | 0 <= k < |name| :: rest[k] == name[k] != '=';
    EqualsIs(rest, |name|);
    assert rest[..|name|] == name && rest[|name| + 1..] == value;
  }

  // ---------------------------------------------------------------- what configuring and registering do

  /** The first override for a name, else the level given. */
  function Resolve(os: seq<Override>, name: string, level: Level): Level {
    if os == [] then level
    else if os[0].name == name then os[0].level
    else Resolve(os[1..], name, level)
  }

  function SetAll(tags: seq<Tag>, os: seq<Override>, level: Level): (r: seq<Tag>)
    ensures |r| == |tags| && forall i | 0 <= i < |tags| :: r[i] == Tag(tags[i].name, Resolve(os, tags[i].name, level))
  {
    seq(|tags|, i requires 0 <= i < |tags| => Tag(tags[i].name, Resolve(os, tags[i].name, level)))
  }

  function SetNamed(tags: seq<Tag>, name: string, level: Level): (r: seq<Tag>)
    ensures |r| == |tags|
    ensures forall i | 0 <= i < |tags| :: r[i] == if tags[i].name == name then Tag(name, level) else tags[i]
  {
    seq(|tags|, i requires 0 <= i < |tags| => if tags[i].name == name then Tag(name, level) else tags[i])
  }

  function Configure(st: Logging, s: Setting): Logging {
    match s
    case Nothing => st
    case Global(l) => st.(global := Some(l), tags := SetAll(st.tags, st.overrides, l))
    case PerTag(name, l) =>
      if |st.overrides| >= MAX_OVERRIDES then st
      else st.(overrides := st.overrides + [Override(name, l)], tags := SetNamed(st.tags, name, l))
  }

  function ConfigureAll(st: Logging, ss: seq<Setting>): Logging
    decreases |ss|
  {
    if ss == [] then st else ConfigureAll(Configure(st, ss[0]), ss[1..])
  }

  /** The settings of the tokens of a command line from position `i` on. */
  function SettingsOf(s: string, ts: seq<Span>): seq<Setting>
    requires Bounded(s, ts)
  {
    seq(|ts|, i requires 0 <= i < |ts| => SettingOf(s[ts[i].start..ts[i].end]))
  }

  function Register(st: Logging, name: string, default: Level): Logging {
    if |st.tags| >= MAX_TAGS then st
    else
      var level := match st.global { case Some(l) => l case None => default };
      st.(tags := st.tags + [Tag(name, Resolve(st.overrides, name, level))], defaults := st.defaults + [default])
  }

  // ---------------------------------------------------------------- settled levels

  /** The level the documentation promises: the tag's override, else the global level, else its default. */
  function Settled(os: seq<Override>, global: Option<Level>, name: string, default: Level): Level {
    Resolve(os, name, match global { case Some(l) => l case None => default })
  }

  /** No name has two different override levels. */
  ghost predicate Consistent(os: seq<Override>) {
    forall i, j | 0 <= i < |os| && 0 <= j < |os| && os[i].name == os[j].name :: os[i].level == os[j].level
  }

  /** Every tag has the level promised for it. */
  ghost predicate AllSettled(st: Logging) {
    && |st.defaults| == |st.tags|
    && forall i | 0 <= i < |st.tags| ::
         st.tags[i].level == Settled(st.overrides, st.global, st.tags[i].name, st.defaults[i])
  }

  /** Unless a name was given two levels. */
  ghost predicate SettledUnlessConflict(st: Logging) {
    && |st.defaults| == |st.tags| <= MAX_TAGS && |st.overrides| <= MAX_OVERRIDES
    && (Consistent(st.overrides) ==> AllSettled(st))
  }

  lemma {:induction false} ResolveAppend(os: seq<Override>, o: Override, name: string, level: Level)
    ensures Resolve(os + [o], name, level) == Resolve(os, name, if o.name == name then o.level else level)
    decreases |os|
  {
    if os == [] {
      assert (os + [o])[1..] == [];
    } else {
      assert (os + [o])[1..] == os[1..] + [o];
      ResolveAppend(os[1..], o, name, level);
    }
  }

  /** If every override for a name has one level, that is what it resolves to from it. */
  lemma {:induction false} ResolveAgrees(os: seq<Override>, name: string, level: Level)
    requires forall i | 0 <= i < |os| && os[i].name == name :: os[i].level == level
    ensures Resolve(os, name, level) == level
    decreases |os|
  {
    if os != [] {
      ResolveAgrees(os[1..], name, level);
    }
  }

  lemma {:induction false} PerTagKeepsSettled(st: Logging, name: string, l: Level)
    requires SettledUnlessConflict(st)
    ensures SettledUnlessConflict(Configure(st, PerTag(name, l)))
  {
    var st' := Configure(st, PerTag(name, l));
    var os, o := st.overrides, Override(name, l);
    if st' != st && Consistent(st'.overrides) {
      assert Consistent(os) by {
        assert forall i | 0 <= i < |os| :: os[i] == st'.overrides[i];
      }
      assert forall i | 0 <= i < |os| && os[i].name == name :: os[i].level == l by {
        assert st'.overrides[|os|] == o && forall i | 0 <= i < |os| :: os[i] == st'.overrides[i];
      }
      ResolveAgrees(os, name, l);
      forall i | 0 <= i < |st.tags|
        ensures st'.tags[i].level == Settled(st'.overrides, st.global, st.tags[i].name, st.defaults[i])
      {
        ResolveAppend(os, o, st.tags[i].name, match st.global { case Some(g) => g case None => st.defaults[i] });
      }
    }
  }

  lemma {:induction false} ConfigureKeepsSettled(st: Logging, s: Setting)
    requires SettledUnlessConflict(st)
    ensures SettledUnlessConflict(Configure(st, s))
  {
    match s {
      case Nothing =>
      case Global(l) =>
      case PerTag(name, l) => PerTagKeepsSettled(st, name, l);
    }
  }

  lemma {:induction false} ConfigureAllKeepsSettled(st: Logging, ss: seq<Setting>)
    requires SettledUnlessConflict(st)
    ensures SettledUnlessConflict(ConfigureAll(st, ss))
    decreases |ss|
  {
    if ss != [] {
      ConfigureKeepsSettled(st, ss[0]);
      ConfigureAllKeepsSettled(Configure(st, ss[0]), ss[1..]);
    }
  }

  lemma {:induction false} RegisterKeepsSettled(st: Logging, name: string, default: Level)
    requires SettledUnlessConflict(st)
    ensures SettledUnlessConflict(Register(st, name, default))
  {}

  // ---------------------------------------------------------------- every interleaving

  /** A call of `log_init`, as the settings on its command line, or of `log_register`. */
  datatype Call = Init(settings: seq<Setting>) | Reg(name: string, default: Level)

  function Apply(st: Logging, c: Call): Logging {
    match c
    case Init(ss) => ConfigureAll(st, ss)
    case Reg(name, default) => Register(st, name, default)
  }

  function ApplyAll(calls: seq<Call>): Logging {
    if calls == [] then UNCONFIGURED else Apply(ApplyAll(calls[..|calls| - 1]), calls[|calls| - 1])
  }

  /** After any interleaving of calls in which no accepted overrides conflict, every registered tag has the
      level promised, even when the tables are full. */
  lemma {:induction false} EveryInterleavingSettles(calls: seq<Call>)
    ensures SettledUnlessConflict(ApplyAll(calls))
    decreases |calls|
  {
    if calls != [] {
      var st := ApplyAll(calls[..|calls| - 1]);
      EveryInterleavingSettles(calls[..|calls| - 1]);
      match calls[|calls| - 1] {
        case Init(ss) => ConfigureAllKeepsSettled(st, ss);
        case Reg(name, default) => RegisterKeepsSettled(st, name, default);
      }
    }
  }

  /** The configuration calls of a sequence, in order. */
  function Inits(calls: seq<Call>): seq<Call> {
    if calls == [] then []
    else Inits(calls[..|calls| - 1]) + if calls[|calls| - 1].Init? then [calls[|calls| - 1]] else []
  }

  /** What `log_init` remembers does not depend on the tags. */
  lemma {:induction false} ConfigurationOnly(st: Logging, st': Logging, ss: seq<Setting>)
    requires st.overrides == st'.overrides && st.global == st'.global
    ensures var r, r' := ConfigureAll(st, ss), ConfigureAll(st', ss); r.overrides == r'.overrides && r.global == r'.global
    decreases |ss|
  {
    if ss != [] {
      ConfigurationOnly(Configure(st, ss[0]), Configure(st', ss[0]), ss[1..]);
    }
  }

  lemma {:induction false} InitsDecide(calls: seq<Call>)
    ensures var st, st' := ApplyAll(calls), ApplyAll(Inits(calls)); st.overrides == st'.overrides && st.global == st'.global
    decreases |calls|
  {
    if calls != [] {
      var init, last := calls[..|calls| - 1], calls[|calls| - 1];
      InitsDecide(init);
      match last {
        case Init(ss) =>
          assert (Inits(init) + [last])[..|Inits(init)|] == Inits(init);
          ConfigurationOnly(ApplyAll(init), ApplyAll(Inits(init)), ss);
        case Reg(_, _) => assert Inits(init) + [] == Inits(init);
      }
    }
  }

  /** Registering before or after configuring gives the same level: it depends on the configuration calls alone. */
  lemma {:induction false} OrderDoesNotMatter(a: seq<Call>, b: seq<Call>, i: nat, j: nat)
    requires Inits(a) == Inits(b) && Consistent(ApplyAll(a).overrides)
    requires i < |ApplyAll(a).tags| && j < |ApplyAll(b).tags| && ApplyAll(a).tags[i].name == ApplyAll(b).tags[j].name
    requires |ApplyAll(a).defaults| == |ApplyAll(a).tags| && |ApplyAll(b).defaults| == |ApplyAll(b).tags|
    requires ApplyAll(a).defaults[i] == ApplyAll(b).defaults[j]
    ensures ApplyAll(a).tags[i].level == ApplyAll(b).tags[j].level
  {
    EveryInterleavingSettles(a);
    EveryInterleavingSettles(b);
    InitsDecide(a);
    InitsDecide(b);
  }

  // ---------------------------------------------------------------- conflicting overrides

  /** Two levels for one name: a tag registered before has the last, a tag registered after the first. */
  lemma {:induction false} ConflictDependsOnOrder(name: string, first: Level, last: Level, default: Level)
    requires first != last
    ensures var init := Init([PerTag(name, first), PerTag(name, last)]);
            && ApplyAll([Reg(name, default), init]).tags == [Tag(name, last)]
            && ApplyAll([init, Reg(name, default)]).tags == [Tag(name, first)]
  {
    var ss := [PerTag(name, first), PerTag(name, last)];
    var init, reg := Init(ss), Reg(name, default);
    assert ss[1..] == [PerTag(name, last)] && ss[1..][1..] == [];
    assert [reg, init][..1] == [reg] && [init, reg][..1] == [init] && [reg][..0] == [] && [init][..0] == [];
    var tagged := Register(UNCONFIGURED, name, default);
    assert tagged.tags == [Tag(name, default)];
    TwoSettings(tagged, ss[0], ss[1]);
    TwoSettings(UNCONFIGURED, ss[0], ss[1]);
    assert ConfigureAll(tagged, ss) == Configure(Configure(tagged, ss[0]), ss[1]);
    assert ConfigureAll(UNCONFIGURED, ss) == Configure(Configure(UNCONFIGURED, ss[0]), ss[1]);
    assert ApplyAll([reg]) == tagged;
    assert ApplyAll([init]).overrides == [Override(name, first), Override(name, last)];
  }

  lemma TwoSettings(st: Logging, a: Setting, b: Setting)
    ensures ConfigureAll(st, [a, b]) == Configure(Configure(st, a), b)
  {
    assert [a, b][1..] == [b] && [b][1..] == [];
    assert ConfigureAll(Configure(st, a), [b]) == ConfigureAll(Configure(Configure(st, a), b), []);
  }

  /** A further override leaves the tags settled exactly when the table is full, or no tag has that name, or no
      earlier override gave the name another level first. */
  lemma {:induction false} OverrideSettlesIff(st: Logging, name: string, l: Level)
    requires AllSettled(st)
    ensures AllSettled(Configure(st, PerTag(name, l))) <==>
            || |st.overrides| >= MAX_OVERRIDES
            || (forall i | 0 <= i < |st.tags| :: st.tags[i].name != name)
            || Resolve(st.overrides, name, l) == l
  {
    var st' := Configure(st, PerTag(name, l));
    var os, o := st.overrides, Override(name, l);
    if |os| < MAX_OVERRIDES {
      forall i | 0 <= i < |st.tags|
        ensures st'.tags[i].level == Settled(st'.overrides, st'.global, st.tags[i].name, st.defaults[i]) <==>
                st.tags[i].name != name || Resolve(os, name, l) == l
      {
        ResolveAppend(os, o, st.tags[i].name, match st.global { case Some(g) => g case None => st.defaults[i] });
      }
    }
  }

  // ---------------------------------------------------------------- the level of every tag in every run

  /** The last override recorded for `name` since the last global level, after one more setting. */
  function LatestStep(st: Logging, s: Setting, name: string, latest: Option<Level>): Option<Level> {
    match s
    case Nothing => latest
    case Global(_) => None
    case PerTag(n, l) => if n == name && |st.overrides| < MAX_OVERRIDES then Some(l) else latest
  }

  function LatestIn(st: Logging, ss: seq<Setting>, name: string, latest: Option<Level>): Option<Level>
    decreases |ss|
  {
    if ss == [] then latest
    else LatestIn(Configure(st, ss[0]), ss[1..], name, LatestStep(st, ss[0], name, latest))
  }

  /** The last override recorded for the name of tag `i` since it was registered and since the last global level. */
  function Latest(calls: seq<Call>, i: nat): Option<Level>
    requires i < |ApplyAll(calls).tags|
    decreases |calls|
  {
    if calls == [] then None
    else
      var before := calls[..|calls| - 1];
      var st := ApplyAll(before);
      if i >= |st.tags| then None
      else
        match calls[|calls| - 1]
        case Init(ss) => LatestIn(st, ss, st.tags[i].name, Latest(before, i))
        case Reg(_, _) => Latest(before, i)
  }

  /** What tag `i` should have. */
  function Promised(st: Logging, i: nat): Level
    requires i < |st.tags| && i < |st.defaults|
  {
    Settled(st.overrides, st.global, st.tags[i].name, st.defaults[i])
  }

  /** The level of tag `i`, given the last override since it was last settled. */
  ghost predicate LevelIs(st: Logging, i: nat, latest: Option<Level>) {
    && i < |st.tags| == |st.defaults|
    && st.tags[i].level == match latest { case Some(l) => l case None => Promised(st, i) }
  }

  lemma {:induction false} ConfigureLevel(st: Logging, s: Setting, i: nat, latest: Option<Level>)
    requires LevelIs(st, i, latest)
    ensures LevelIs(Configure(st, s), i, LatestStep(st, s, st.tags[i].name, latest))
    ensures Configure(st, s).tags[i].name == st.tags[i].name
  {
    if s.PerTag? {
      var level := match st.global { case Some(g) => g case None => st.defaults[i] };
      ResolveAppend(st.overrides, Override(s.name, s.level), st.tags[i].name, level);
    }
  }

  lemma {:induction false} ConfigureAllLevel(st: Logging, ss: seq<Setting>, i: nat, latest: Option<Level>)
    requires LevelIs(st, i, latest)
    ensures LevelIs(ConfigureAll(st, ss), i, LatestIn(st, ss, st.tags[i].name, latest))
    decreases |ss|
  {
    if ss != [] {
      ConfigureLevel(st, ss[0], i, latest);
      ConfigureAllLevel(Configure(st, ss[0]), ss[1..], i, LatestStep(st, ss[0], st.tags[i].name, latest));
    }
  }

  lemma {:induction false} SameTags(st: Logging, ss: seq<Setting>)
    ensures |ConfigureAll(st, ss).tags| == |st.tags| && ConfigureAll(st, ss).defaults == st.defaults
    decreases |ss|
  {
    if ss != [] {
      SameTags(Configure(st, ss[0]), ss[1..]);
    }
  }

  /** After any interleaving of calls, conflicting or not, a tag has the last override recorded for its name since it
      was registered and since the last global level, and the level promised if there is none; so it is settled
      exactly when there is none or that one is the level promised. */
  lemma {:induction false} TagSettledIff(calls: seq<Call>, i: nat)
    requires i < |ApplyAll(calls).tags|
    ensures var st := ApplyAll(calls);
            && |st.defaults| == |st.tags|
            && st.tags[i].level == (match Latest(calls, i) { case Some(l) => l case None => Promised(st, i) })
            && (st.tags[i].level == Promised(st, i)
                <==> Latest(calls, i) == None || Latest(calls, i) == Some(Promised(st, i)))
    decreases |calls|
  {
    var before, last := calls[..|calls| - 1], calls[|calls| - 1];
    var st := ApplyAll(before);
    EveryInterleavingSettles(before);
    if last.Init? {
      SameTags(st, last.settings);
    }
    if i < |st.tags| {
      TagSettledIff(before, i);
      if last.Init? {
        ConfigureAllLevel(st, last.settings, i, Latest(before, i));
      }
    }
  }
}
