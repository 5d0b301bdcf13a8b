/** Runs of a transition system given by an initial-state predicate and a step relation. */
module Runs {

  /** Every two neighbouring states are related by a step. */
  ghost predicate IsPath<S(!new)>(next: (S, S) -> bool, tr: seq<S>) {
    |tr| > 0 && forall i, j :: 0 <= i && j == i + 1 < |tr| ==> next(tr[i], tr[j])
  }

  /** Some finite run from an initial state ends in `s`. */
  ghost predicate Reachable<S(!new)>(init: S -> bool, next: (S, S) -> bool, s: S) {
    exists tr :: IsPath(next, tr) && init(tr[0]) && tr[|tr| - 1] == s
  }

  /** Some finite path leads from `s` to `s'`. */
  ghost predicate Leads<S(!new)>(next: (S, S) -> bool, s: S, s': S) {
    exists tr :: IsPath(next, tr) && tr[0] == s && tr[|tr| - 1] == s'
  }

  lemma Start<S(!new)>(init: S -> bool, next: (S, S) -> bool, s: S)
    requires init(s)
    ensures Reachable(init, next, s)
  {
    assert IsPath(next, [s]);
  }

  lemma Stay<S(!new)>(next: (S, S) -> bool, s: S)
    ensures Leads(next, s, s)
  {
    assert IsPath(next, [s]);
  }

  /** A path grows by one step at its end. */
  lemma ExtendPath<S(!new)>(next: (S, S) -> bool, tr: seq<S>, s': S)
    requires IsPath(next, tr) && next(tr[|tr| - 1], s')
    ensures IsPath(next, tr + [s']) && (tr + [s'])[0] == tr[0]
  {
    var longer := tr + [s'];
    forall i, j | 0 <= i && j == i + 1 < |longer| ensures next(longer[i], longer[j]) {
      if j < |tr| {
        assert next(tr[i], tr[j]);
      }
    }
  }

  lemma Extend<S(!new)>(init: S -> bool, next: (S, S) -> bool, s: S, s': S)
    requires Reachable(init, next, s) && next(s, s')
    ensures Reachable(init, next, s')
  {
    var tr :| IsPath(next, tr) && init(tr[0]) && tr[|tr| - 1] == s;
    ExtendPath(next, tr, s');
    assert (tr + [s'])[|tr + [s']| - 1] == s';
  }

  lemma LeadsOn<S(!new)>(next: (S, S) -> bool, s: S, s': S, s'': S)
    requires Leads(next, s, s') && next(s', s'')
    ensures Leads(next, s, s'')
  {
    var tr :| IsPath(next, tr) && tr[0] == s && tr[|tr| - 1] == s';
    ExtendPath(next, tr, s'');
    assert (tr + [s''])[|tr + [s'']| - 1] == s'';
  }

  lemma Prepend<S(!new)>(next: (S, S) -> bool, s: S, s': S, s'': S)
    requires next(s, s') && Leads(next, s', s'')
    ensures Leads(next, s, s'')
  {
    var tr :| IsPath(next, tr) && tr[0] == s' && tr[|tr| - 1] == s'';
    var longer := [s] + tr;
    forall i, j | 0 <= i && j == i + 1 < |longer| ensures next(longer[i], longer[j]) {
      if i > 0 {
        assert longer[i] == tr[i - 1] && longer[j] == tr[j - 1];
        assert next(tr[i - 1], tr[j - 1]);
      }
    }
    assert longer[0] == s && longer[|longer| - 1] == s'';
    assert IsPath(next, longer);
  }

  /** What a step keeps holds at every state of a path that starts with it. */
  lemma {:induction false} Along<S(!new)>(next: (S, S) -> bool, inv: S -> bool, tr: seq<S>, i: nat)
    requires IsPath(next, tr) && i < |tr| && inv(tr[0])
    requires forall s, s' :: inv(s) && next(s, s') ==> inv(s')
    ensures inv(tr[i])
    decreases i
  {
    if i == 0 {
    } else {
      Along(next, inv, tr, i - 1);
      assert next(tr[i - 1], tr[i]);
    }
  }

  /** What holds initially and is kept by every step holds in every reachable state. */
  lemma Always<S(!new)>(init: S -> bool, next: (S, S) -> bool, inv: S -> bool, s: S)
    requires Reachable(init, next, s)
    requires forall s0 :: init(s0) ==> inv(s0)
    requires forall s0, s1 :: inv(s0) && next(s0, s1) ==> inv(s1)
    ensures inv(s)
  {
    var tr :| IsPath(next, tr) && init(tr[0]) && tr[|tr| - 1] == s;
    Along(next, inv, tr, |tr| - 1);
  }

  lemma AlwaysFrom<S(!new)>(next: (S, S) -> bool, inv: S -> bool, s: S, s': S)
    requires Leads(next, s, s') && inv(s)
    requires forall s0, s1 :: inv(s0) && next(s0, s1) ==> inv(s1)
    ensures inv(s')
  {
    var tr :| IsPath(next, tr) && tr[0] == s && tr[|tr| - 1] == s';
    Along(next, inv, tr, |tr| - 1);
  }
}
