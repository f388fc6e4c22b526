/** Runs of a state machine given by its transition relation. */
module Transitions {

  /** `s'` follows from `s` by the actions `t`, in order. */
  ghost predicate Runs<S(!new), A>(next: (S, A, S) -> bool, s: S, t: seq<A>, s': S)
    decreases |t|
  {
    if t == [] then s' == s else exists m :: next(s, t[0], m) && Runs(next, m, t[1..], s')
  }

  /** What every allowed transition keeps holds at the end of every run of allowed actions. */
  lemma {:induction false} Invariant<S(!new), A(!new)>(
    next: (S, A, S) -> bool, allowed: A -> bool, inv: S -> bool, s: S, t: seq<A>, s': S)
    requires forall s, a, s' | inv(s) && allowed(a) && next(s, a, s') :: inv(s')
    requires inv(s) && (forall a | a in t :: allowed(a)) && Runs(next, s, t, s')
    ensures inv(s')
    decreases |t|
  {
    if t != [] {
      var m :| next(s, t[0], m) && Runs(next, m, t[1..], s');
      assert allowed(t[0]);
      Invariant(next, allowed, inv, m, t[1..], s');
    }
  }

  lemma {:induction false} One<S(!new), A>(next: (S, A, S) -> bool, s: S, a: A, s': S)
    requires next(s, a, s')
    ensures Runs(next, s, [a], s')
  {
    assert Runs(next, s', [a][1..], s');
  }

  lemma {:induction false} Append<S(!new), A>(
    next: (S, A, S) -> bool, s: S, t: seq<A>, m: S, t': seq<A>, s': S)
    requires Runs(next, s, t, m) && Runs(next, m, t', s')
    ensures Runs(next, s, t + t', s')
    decreases |t|
  {
    if t == [] {
      assert t + t' == t';
    } else {
      var k :| next(s, t[0], k) && Runs(next, k, t[1..], m);
      Append(next, k, t[1..], m, t', s');
      assert (t + t')[1..] == t[1..] + t';
    }
  }

  /** Some run leads from `s` to `s'`. */
  ghost predicate Reaches<S(!new), A(!new)>(next: (S, A, S) -> bool, s: S, s': S) {
    exists t :: Runs(next, s, t, s')
  }

  lemma {:induction false} Then<S(!new), A(!new)>(next: (S, A, S) -> bool, s: S, a: A, m: S, s': S)
    requires next(s, a, m) && Reaches(next, m, s')
    ensures Reaches(next, s, s')
  {
    var t :| Runs(next, m, t, s');
    One(next, s, a, m);
    Append(next, s, [a], m, t, s');
  }

  lemma {:induction false} Join<S(!new), A(!new)>(next: (S, A, S) -> bool, s: S, m: S, s': S)
    requires Reaches(next, s, m) && Reaches(next, m, s')
    ensures Reaches(next, s, s')
  {
    var t :| Runs(next, s, t, m);
    var t' :| Runs(next, m, t', s');
    Append(next, s, t, m, t', s');
  }

  lemma {:induction false} Stay<S(!new), A(!new)>(next: (S, A, S) -> bool, s: S)
    ensures Reaches(next, s, s)
  {
    assert Runs(next, s, [], s);
  }
}
