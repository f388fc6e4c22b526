/** The logging configuration as code: two static tables, a global level, and the command line parser. */
module Log {
  import opened CmdLine
  import opened LogLevels
  import opened Wrappers

  /** What is left to configure from position `i` on. */
  function LineSettings(s: string, i: nat): seq<Setting>
    requires i <= |s|
    decreases |s| - i
  {
    var a := SkipBlanks(s, i);
    if a == |s| then [] else [SettingOf(s[a..TokenEnd(s, a)])] + LineSettings(s, TokenEnd(s, a))
  }

  /** Those are the settings of the tokens. */
  lemma {:induction false} LineSettingsAreTokens(s: string, i: nat)
    requires i <= |s|
    ensures Bounded(s, Tokens(s, i))
    ensures LineSettings(s, i) == SettingsOf(s, Tokens(s, i))
    decreases |s| - i
  {
    hide SettingOf, SkipBlanks;
    var a := SkipBlanks(s, i);
    if a < |s| {
      var rest := Tokens(s, TokenEnd(s, a));
      LineSettingsAreTokens(s, TokenEnd(s, a));
      SettingsStep(s, Span(a, TokenEnd(s, a)), rest);
    }
  }

  lemma SettingsStep(s: string, t: Span, rest: seq<Span>)
    requires t.start <= t.end <= |s| && forall k | 0 <= k < |rest| :: rest[k].start <= rest[k].end <= |s|
    ensures forall k | 0 <= k < |[t] + rest| :: ([t] + rest)[k].start <= ([t] + rest)[k].end <= |s|
    ensures SettingsOf(s, [t] + rest) == [SettingOf(s[t.start..t.end])] + SettingsOf(s, rest)
  {
    hide SettingOf;
  }

  class Log {
    const tags: array<Tag>
    var tagCount: nat
    var globalLevel: Level
    var globalLevelSet: bool
    const overrides: array<Override>
    var overrideCount: nat
    /** The levels the tags were registered with. */
    ghost var defaults: seq<Level>

    ghost predicate Valid()
      reads this
    {
      tags.Length == MAX_TAGS && overrides.Length == MAX_OVERRIDES && tagCount <= MAX_TAGS && overrideCount <= MAX_OVERRIDES
    }

    ghost function State(): Logging
      requires Valid()
      reads this, tags, overrides
    {
      Logging(tags[..tagCount], defaults, overrides[..overrideCount], if globalLevelSet then Some(globalLevel) else None)
    }

    constructor ()
      ensures Valid() && State() == UNCONFIGURED && fresh(tags) && fresh(overrides)
    {
      tags := new Tag[MAX_TAGS](_ => Tag("", 0));
      overrides := new Override[MAX_OVERRIDES](_ => Override("", 0));
      tagCount, globalLevel, globalLevelSet, overrideCount, defaults := 0, 2, false, 0, [];
    }

    /** `apply_overrides`: the first override for the tag's name wins. */
    method ApplyOverrides(i: nat)
      requires Valid() && i < tagCount
      modifies tags
      ensures Valid()
      ensures var t := old(tags[i]);
              tags[..] == old(tags[..])[i := Tag(t.name, Resolve(overrides[..overrideCount], t.name, t.level))]
    {
      ghost var os := overrides[..overrideCount];
      for k := 0 to overrideCount
        invariant tags[..] == old(tags[..])
        invariant Resolve(os[k..], tags[i].name, tags[i].level) == Resolve(os, tags[i].name, tags[i].level)
      {
        assert os[k..][1..] == os[k + 1..];
        if |tags[i].name| == |overrides[k].name| && tags[i].name == overrides[k].name {
          tags[i] := tags[i].(level := overrides[k].level);
          return;
        }
      }
      assert os[overrideCount..] == [];
    }

    /** The `log=` branch. */
    method SetGlobal(level: Level)
      requires Valid()
      modifies this, tags
      ensures Valid() && State() == Configure(old(State()), Global(level))
    {
      globalLevel, globalLevelSet := level, true;
      ghost var os := overrides[..overrideCount];
      ghost var want := SetAll(tags[..tagCount], os, level);
      for i := 0 to tagCount
        invariant forall k | 0 <= k < i :: tags[k] == want[k]
        invariant forall k | i <= k < tagCount :: tags[k] == old(tags[k])
        invariant overrides[..overrideCount] == os
        modifies tags
      {
        tags[i] := tags[i].(level := level);
        ghost var before := tags[..];
        ApplyOverrides(i);
        assert forall k | 0 <= k < tagCount && k != i :: tags[..][k] == before[k];
        assert tags[..][i] == want[i];
      }
      assert tags[..tagCount] == want;
    }

    /** The `log.` branch: nothing happens when the table is full. */
    method AddOverride(name: string, level: Level)
      requires Valid()
      modifies this, tags, overrides
      ensures Valid() && State() == Configure(old(State()), PerTag(name, level))
      ensures |State().overrides| == if |old(State()).overrides| < 16 then |old(State()).overrides| + 1 else 16
    {
      if overrideCount < MAX_OVERRIDES {
        overrides[overrideCount] := Override(name, level);
        overrideCount := overrideCount + 1;
        SetTags(name, level);
      }
    }

    method SetTags(name: string, level: Level)
      requires Valid()
      modifies tags
      ensures Valid() && tags[..tagCount] == SetNamed(old(tags[..tagCount]), name, level)
    {
      ghost var want := SetNamed(tags[..tagCount], name, level);
      for i := 0 to tagCount
        invariant forall k | 0 <= k < i :: tags[k] == want[k]
        invariant forall k | i <= k < tagCount :: tags[k] == old(tags[k])
      {
        if |tags[i].name| == |name| && tags[i].name == name {
          tags[i] := tags[i].(level := level);
        }
      }
      assert tags[..tagCount] == want;
    }

    /** What one token asks for, found by stepping through it. */
    method ReadSetting(s: string, pos: nat) returns (r: Setting)
      requires CString(s) && pos < |s|
      ensures r == SettingOf(s[pos..TokenEnd(s, pos)])
    {
      ghost var token := s[pos..TokenEnd(s, pos)];
      r := Nothing;
      PrefixInToken(s, pos, "log=");
      PrefixInToken(s, pos, "log.");
      FourLetters(token);
      if HasPrefixAt(s, pos, "log=") && At(s, pos + 4) != '\0' && !IsBlank(At(s, pos + 4)) {
        var end := EndOfToken(s, pos + 4);
        SameEnd(s, pos, pos + 4);
        assert token[4..] == s[pos + 4..end];
        var level := ParseLevel(s[pos + 4..end]);
        if level.Some? { return Global(level.value); }
      } else if HasPrefixAt(s, pos, "log.") {
        SameEnd(s, pos, pos + 4);
        r := ReadOverride(s, pos + 4);
        assert token[4..] == s[pos + 4..TokenEnd(s, pos)];
      }
    }

    /** What follows "log." */
    method ReadOverride(s: string, start: nat) returns (r: Setting)
      requires CString(s) && start <= |s|
      ensures r == OverrideOf(s[start..TokenEnd(s, start)])
    {
      ghost var t := s[start..TokenEnd(s, start)];
      var eq := start;
      while eq < |s| && s[eq] != '=' && !IsBlank(s[eq])
        invariant start <= eq <= TokenEnd(s, start)
        invariant forall k | start <= k < eq :: s[k] != '='
      {
        eq := eq + 1;
      }
      EqualsIs(t, eq - start);
      if At(s, eq) == '=' && eq > start {
        SameEnd(s, start, eq + 1);
        var end := EndOfToken(s, eq + 1);
        assert t[eq - start + 1..] == s[eq + 1..end] && t[..eq - start] == s[start..eq];
        var level := ParseLevel(s[eq + 1..end]);
        if level.Some? { return PerTag(s[start..eq], level.value); }
      }
      r := Nothing;
    }

    /** `log_init`: exactly the settings of the tokens, in order. */
    method Init(cmdline: Option<string>)
      requires Valid() && (cmdline.Some? ==> CString(cmdline.value))
      modifies this, tags, overrides
      ensures Valid()
      ensures cmdline.None? ==> State() == old(State())
      ensures cmdline.Some? ==> State() == ConfigureAll(old(State()), LineSettings(cmdline.value, 0))
    {
      hide Configure, SettingOf;
      if cmdline.None? { return; }
      var s := cmdline.value;
      var pos := 0;
      while pos < |s|
        invariant pos <= |s| && Valid()
        invariant ConfigureAll(State(), LineSettings(s, pos)) == ConfigureAll(old(State()), LineSettings(s, 0))
      {
        var start := pos;
        while start < |s| && (s[start] == ' ' || s[start] == '\t')
          invariant pos <= start <= |s| && SkipBlanks(s, start) == SkipBlanks(s, pos)
        {
          start := start + 1;
        }
        if start == |s| {
          pos := start;
          break;
        }
        var setting := ReadSetting(s, start);
        HeadTail(State(), setting, LineSettings(s, TokenEnd(s, start)));
        match setting {
          case Global(level) => SetGlobal(level);
          case PerTag(name, level) => AddOverride(name, level);
          case Nothing => NothingAsked(State());
        }
        pos := EndOfToken(s, start);
      }
    }

    /** `log_register`; the tag is the index of its slot. */
    method RegisterTag(name: string, default: Level) returns (tag: Option<nat>)
      requires Valid()
      modifies this, tags
      ensures Valid() && State() == Register(old(State()), name, default)
      ensures tag == if |old(State()).tags| >= 32 then None else Some(|old(State()).tags|)
      ensures |State().tags| <= 32 && |State().overrides| <= 16
    {
      if tagCount >= MAX_TAGS { return None; }
      ghost var st := State();
      var i := tagCount;
      tagCount := tagCount + 1;
      defaults := defaults + [default];
      tags[i] := Tag(name, if globalLevelSet then globalLevel else default);
      ApplyOverrides(i);
      assert tags[..tagCount] == st.tags + [tags[i]];
      tag := Some(i);
    }
  }

  /** The part of `SettingOf` behind "log." */
  function OverrideOf(t: string): Setting {
    var e := EqualsAt(t);
    if 0 < e < |t| then
      match ParseLevel(t[e + 1..]) {
        case Some(l) => PerTag(t[..e], l)
        case None => Nothing
      }
    else Nothing
  }

  lemma FourLetters(token: string)
    ensures SettingOf(token) == if "log=" <= token && |token| > 4 then
                                  match ParseLevel(token[4..]) { case Some(l) => Global(l) case None => Nothing }
                                else if "log." <= token then OverrideOf(token[4..])
                                else Nothing
  {
    assert "log=" <= token <==> |token| >= 4 && token[..4] == "log=";
    assert "log." <= token <==> |token| >= 4 && token[..4] == "log.";
  }

  lemma HeadTail(st: Logging, s: Setting, rest: seq<Setting>)
    ensures ConfigureAll(st, [s] + rest) == ConfigureAll(Configure(st, s), rest)
  {
    assert ([s] + rest)[1..] == rest;
  }

  lemma NothingAsked(st: Logging)
    ensures Configure(st, Nothing) == st
  {}
}
