/** Runs of transition systems. A system is given by the relation next(s, a, t): action a
    takes state s to state t. */
module Runs {

  ghost predicate IsPath<S, A>(next: (S, A, S) -> bool, path: seq<S>, actions: seq<A>) {
    && |path| == |actions| + 1
    && forall k | 0 <= k < |actions| :: next(path[k], actions[k], path[k + 1])
  }

  ghost predicate Reaches<S(!new), A(!new)>(next: (S, A, S) -> bool, from: S, to: S) {
    exists path: seq<S>, actions: seq<A> :: IsPath(next, path, actions) && path[0] == from && path[|actions|] == to
  }

  lemma Stays<S(!new), A(!new)>(next: (S, A, S) -> bool, s: S)
    ensures Reaches(next, s, s)
  {
    var none: seq<A> := [];
    assert IsPath(next, [s], none) && [s][0] == s && [s][|none|] == s;
  }

  lemma Extend<S(!new), A(!new)>(next: (S, A, S) -> bool, from: S, s: S, a: A, t: S)
    requires Reaches(next, from, s) && next(s, a, t)
    ensures Reaches(next, from, t)
  {
    var path: seq<S>, actions: seq<A> :| IsPath(next, path, actions) && path[0] == from && path[|actions|] == s;
    var path', actions' := path + [t], actions + [a];
    forall k | 0 <= k < |actions'|
      ensures next(path'[k], actions'[k], path'[k + 1])
    {
      assert k < |actions| ==> path'[k] == path[k] && path'[k + 1] == path[k + 1] && actions'[k] == actions[k];
    }
    assert IsPath(next, path', actions') && path'[0] == from && path'[|actions'|] == t;
  }

  /** A first step, and then the rest. */
  lemma Precede<S(!new), A(!new)>(next: (S, A, S) -> bool, s: S, a: A, t: S, to: S)
    requires next(s, a, t) && Reaches(next, t, to)
    ensures Reaches(next, s, to)
  {
    var path: seq<S>, actions: seq<A> :| IsPath(next, path, actions) && path[0] == t && path[|actions|] == to;
    var path', actions' := [s] + path, [a] + actions;
    forall k | 0 <= k < |actions'|
      ensures next(path'[k], actions'[k], path'[k + 1])
    {
      assert k > 0 ==> path'[k] == path[k - 1] && path'[k + 1] == path[k - 1 + 1] && actions'[k] == actions[k - 1];
    }
    assert IsPath(next, path', actions') && path'[0] == s && path'[|actions'|] == to;
  }

  lemma {:induction false} PathReaches<S(!new), A(!new)>(next: (S, A, S) -> bool, path: seq<S>, actions: seq<A>, k: nat)
    requires IsPath(next, path, actions) && k <= |actions|
    ensures Reaches(next, path[0], path[k])
  {
    if k == 0 {
      Stays(next, path[0]);
    } else {
      PathReaches(next, path, actions, k - 1);
      assert next(path[k - 1], actions[k - 1], path[k - 1 + 1]);
      Extend(next, path[0], path[k - 1], actions[k - 1], path[k]);
    }
  }

  ghost predicate Preserves<S(!new), A(!new)>(next: (S, A, S) -> bool, inv: S -> bool) {
    forall s, a, t | inv(s) && next(s, a, t) :: inv(t)
  }

  ghost function ReachedFrom<S(!new), A(!new)>(next: (S, A, S) -> bool, from: S): S -> bool {
    s => Reaches(next, from, s)
  }

  /** Being reached is itself something that every step keeps. */
  lemma ReachedKept<S(!new), A(!new)>(next: (S, A, S) -> bool, from: S)
    ensures Reaches(next, from, from) && Preserves(next, ReachedFrom(next, from))
  {
    Stays(next, from);
    forall s, a, t | Reaches(next, from, s) && next(s, a, t)
      ensures Reaches(next, from, t)
    {
      Extend(next, from, s, a, t);
    }
  }

  /** What every step keeps holds at the end of every run. */
  lemma Kept<S(!new), A(!new)>(next: (S, A, S) -> bool, inv: S -> bool, from: S, to: S)
    requires Reaches(next, from, to) && inv(from) && Preserves(next, inv)
    ensures inv(to)
  {
    var path: seq<S>, actions: seq<A> :| IsPath(next, path, actions) && path[0] == from && path[|actions|] == to;
    KeptAlong(next, inv, path, actions, |actions|);
  }

  lemma {:induction false} KeptAlong<S(!new), A(!new)>(next: (S, A, S) -> bool, inv: S -> bool, path: seq<S>, actions: seq<A>, k: nat)
    requires IsPath(next, path, actions) && inv(path[0]) && Preserves(next, inv) && k <= |actions|
    ensures inv(path[k])
  {
    if k > 0 {
      KeptAlong(next, inv, path, actions, k - 1);
      assert next(path[k - 1], actions[k - 1], path[k - 1 + 1]);
    }
  }

  /** A run of a system is a run of every system that allows more. */
  lemma Allowed<S(!new), A(!new)>(next: (S, A, S) -> bool, more: (S, A, S) -> bool, from: S, to: S)
    requires Reaches(next, from, to) && forall s, a, t | next(s, a, t) :: more(s, a, t)
    ensures Reaches(more, from, to)
  {
    var path: seq<S>, actions: seq<A> :| IsPath(next, path, actions) && path[0] == from && path[|actions|] == to;
    assert IsPath(more, path, actions);
  }
}
