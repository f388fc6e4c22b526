/** The kernel command line: a C string of tokens separated by spaces and tabs. */
module CmdLine {

  /** The text of a C string. */
  predicate CString(s: string) {
    '\0' !in s
  }

  /** What a pointer to position `i` reads. */
  function At(s: string, i: nat): char {
    if i < |s| then s[i] else '\0'
  }

  predicate IsBlank(c: char) {
    c == ' ' || c == '\t'
  }

  /** The first position from `i` on that is not blank. */
  function SkipBlanks(s: string, i: nat): (j: nat)
    requires i <= |s|
    ensures i <= j <= |s| && (j < |s| ==> !IsBlank(s[j])) && forall k | i <= k < j :: IsBlank(s[k])
    decreases |s| - i
  {
    if i < |s| && IsBlank(s[i]) then SkipBlanks(s, i + 1) else i
  }

  /** The first position from `i` on that is blank, or the end. */
  function TokenEnd(s: string, i: nat): (j: nat)
    requires i <= |s|
    ensures i <= j <= |s| && (j < |s| ==> IsBlank(s[j])) && forall k | i <= k < j :: !IsBlank(s[k])
    decreases |s| - i
  {
    if i < |s| && !IsBlank(s[i]) then TokenEnd(s, i + 1) else i
  }

  datatype Span = Span(start: nat, end: nat)

  /** The tokens from position `i` on, in order. */
  function Tokens(s: string, i: nat): seq<Span>
    requires i <= |s|
    decreases |s| - i
  {
    var start := SkipBlanks(s, i);
    if start == |s| then [] else [Span(start, TokenEnd(s, start))] + Tokens(s, TokenEnd(s, start))
  }

  /** A maximal run of characters that are not blank. */
  ghost predicate Maximal(s: string, t: Span) {
    && t.start < t.end <= |s| && (forall k | t.start <= k < t.end :: s[k] != ' ' && s[k] != '\t')
    && (t.start > 0 ==> s[t.start - 1] == ' ' || s[t.start - 1] == '\t')
    && (t.end < |s| ==> s[t.end] == ' ' || s[t.end] == '\t')
  }

  /** Starting at a token boundary, the tokens are exactly the maximal runs, in order. */
  lemma {:induction false} TokensAreRuns(s: string, i: nat)
    requires i <= |s| && (i > 0 && i < |s| ==> IsBlank(s[i - 1]) || IsBlank(s[i]))
    ensures forall k | 0 <= k < |Tokens(s, i)| :: Maximal(s, Tokens(s, i)[k]) && i <= Tokens(s, i)[k].start
    ensures forall j, k | 0 <= j < k < |Tokens(s, i)| :: Tokens(s, i)[j].end < Tokens(s, i)[k].start
    ensures forall t: Span | Maximal(s, t) && i <= t.start :: t in Tokens(s, i)
    decreases |s| - i
  {
    hide Maximal;
    var start := SkipBlanks(s, i);
    if start == |s| {
      NoRun(s, i);
    } else {
      var t := Span(start, TokenEnd(s, start));
      TokensAreRuns(s, t.end);
      FirstRun(s, i, start, t);
      FirstThenRest(s, i, t, Tokens(s, t.end));
    }
  }

  lemma NoRun(s: string, i: nat)
    requires i <= |s| && SkipBlanks(s, i) == |s|
    ensures forall t: Span | i <= t.start :: !Maximal(s, t)
  {
    forall t: Span | i <= t.start
      ensures !Maximal(s, t)
    {
      assert t.start >= |s| || IsBlank(At(s, t.start));
    }
  }

  lemma {:induction false} FirstThenRest(s: string, i: nat, t: Span, rest: seq<Span>)
    requires Maximal(s, t) && i <= t.start
    requires forall k | 0 <= k < |rest| :: Maximal(s, rest[k]) && t.end <= rest[k].start
    requires forall j, k | 0 <= j < k < |rest| :: rest[j].end < rest[k].start
    requires forall u: Span | Maximal(s, u) && t.end <= u.start :: u in rest
    requires forall u: Span | Maximal(s, u) && i <= u.start :: u == t || t.end < u.start
    ensures var ts := [t] + rest;
            && (forall k | 0 <= k < |ts| :: Maximal(s, ts[k]) && i <= ts[k].start)
            && (forall j, k | 0 <= j < k < |ts| :: ts[j].end < ts[k].start)
            && (forall u: Span | Maximal(s, u) && i <= u.start :: u in ts)
  {
    forall k | 0 <= k < |rest|
      ensures t.end < rest[k].start
    {
      assert Maximal(s, rest[k]);
    }
  }

  /** A maximal run from `i` on is the first token or starts behind it. */
  lemma {:induction false} FirstRun(s: string, i: nat, start: nat, t: Span)
    requires i <= |s| && start == SkipBlanks(s, i) < |s| && t == Span(start, TokenEnd(s, start))
    requires i > 0 && i < |s| ==> IsBlank(s[i - 1]) || IsBlank(s[i])
    ensures Maximal(s, t)
    ensures forall u: Span | Maximal(s, u) && i <= u.start :: u == t || t.end < u.start
  {
    forall u: Span | Maximal(s, u) && i <= u.start
      ensures u == t || t.end < u.start
    {
      assert start <= u.start || IsBlank(At(s, u.start));
      RunsApart(s, t, u);
    }
  }

  /** Maximal runs are equal or apart. */
  lemma {:induction false} RunsApart(s: string, t: Span, u: Span)
    requires Maximal(s, t) && Maximal(s, u) && t.start <= u.start
    ensures u == t || t.end < u.start
  {
    if u.start == t.start {
      var end := if t.end < u.end then t.end else u.end;
      assert end == |s| || IsBlank(s[end]);
    } else {
      assert t.start < u.start && IsBlank(s[u.start - 1]);
    }
  }

  /** `strncmp(s + i, word, |word|) == 0` */
  predicate HasPrefixAt(s: string, i: nat, word: string)
    requires i <= |s|
  {
    word <= s[i..]
  }

  /** A word without blanks is a prefix of the rest of the line just when it is one of the token there. */
  lemma {:induction false} PrefixInToken(s: string, i: nat, word: string)
    requires i <= |s| && forall k | 0 <= k < |word| :: !IsBlank(word[k])
    ensures HasPrefixAt(s, i, word) <==> word <= s[i..TokenEnd(s, i)]
  {
    if HasPrefixAt(s, i, word) {
      assert forall k | 0 <= k < |word| :: s[i..][k] == word[k] && !IsBlank(s[i + k]);
      assert TokenEnd(s, i) >= i + |word|;
    }
    assert s[i..TokenEnd(s, i)] == s[i..][..TokenEnd(s, i) - i];
  }

  /** Where the first `=` of a text is, or its end. */
  function EqualsAt(t: string): (e: nat)
    ensures e <= |t| && (e < |t| ==> t[e] == '=') && forall k | 0 <= k < e :: t[k] != '='
  {
    if t == "" || t[0] == '=' then 0 else 1 + EqualsAt(t[1..])
  }

  lemma EqualsIs(t: string, e: nat)
    requires e <= |t| && (e < |t| ==> t[e] == '=') && forall k | 0 <= k < e :: t[k] != '='
    ensures EqualsAt(t) == e
  {}

  /** A token ends at the same place seen from any position inside it. */
  lemma {:induction false} SameEnd(s: string, i: nat, j: nat)
    requires i <= |s| && i <= j <= TokenEnd(s, i)
    ensures TokenEnd(s, j) == TokenEnd(s, i)
    decreases j - i
  {
    if i < j {
      SameEnd(s, i + 1, j);
    }
  }

  /** The spans lie in the line. */
  predicate Bounded(s: string, ts: seq<Span>) {
    forall k | 0 <= k < |ts| :: ts[k].start <= ts[k].end <= |s|
  }

  lemma {:induction false} TokensBounded(s: string, i: nat)
    requires i <= |s|
    ensures Bounded(s, Tokens(s, i))
    decreases |s| - i
  {
    var a := SkipBlanks(s, i);
    if a < |s| {
      TokensBounded(s, TokenEnd(s, a));
    }
  }

  /** The scan to the end of a token: `token_len` and the loops like it. */
  method EndOfToken(s: string, start: nat) returns (pos: nat)
    requires CString(s) && start <= |s|
    ensures pos == TokenEnd(s, start)
  {
    pos := start;
    while pos < |s| && s[pos] != ' ' && s[pos] != '\t'
      invariant start <= pos <= |s| && TokenEnd(s, pos) == TokenEnd(s, start)
    {
      pos := pos + 1;
    }
  }
}
