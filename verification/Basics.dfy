/** Small definitions that several modules share. */
module Basics {
  datatype Option<T> = None | Some(value: T)
}

module Integers {
  function Min(a: int, b: int): int { if a <= b then a else b }

  function Max(a: int, b: int): int { if a >= b then a else b }

  function Distance(a: int, b: int): nat { if a <= b then b - a else a - b }
}

module Reals {
  function Min(x: real, y: real): real { if x <= y then x else y }

  function Max(x: real, y: real): real { if x >= y then x else y }
}

/** Finite sets of numbers and their sizes. */
module Sizes {
  lemma {:induction false} SubsetSize(a: set<nat>, b: set<nat>)
    requires a <= b
    ensures |a| <= |b|
  {
    if x :| x in a {
      SubsetSize(a - {x}, b - {x});
    }
  }

  /** The keys whose values satisfy p. */
  function Where<T>(m: map<nat, T>, p: T -> bool): set<nat> {
    set t | t in m && p(m[t])
  }

  lemma WhereAdded<T>(m: map<nat, T>, p: T -> bool, key: nat, x: T)
    requires key !in m
    ensures |Where(m[key := x], p)| == |Where(m, p)| + (if p(x) then 1 else 0)
  {
    var more := m[key := x];
    forall t | t in more
      ensures t in Where(more, p) <==> t in Where(m, p) || (t == key && p(x))
    {
    }
    if p(x) {
      assert Where(more, p) == Where(m, p) + {key};
    } else {
      assert Where(more, p) == Where(m, p);
    }
  }

  lemma WhereRemoved<T>(m: map<nat, T>, p: T -> bool, key: nat)
    requires key in m
    ensures |Where(m - {key}, p)| == |Where(m, p)| - (if p(m[key]) then 1 else 0)
  {
    var rest := m - {key};
    assert rest[key := m[key]] == m;
    WhereAdded(rest, p, key, m[key]);
  }

  lemma WhereImplies<T>(m: map<nat, T>, p: T -> bool, q: T -> bool)
    requires forall t | t in m && p(m[t]) :: q(m[t])
    ensures |Where(m, p)| <= |Where(m, q)|
  {
    SubsetSize(Where(m, p), Where(m, q));
  }

  lemma WhereBelow<T>(m: map<nat, T>, p: T -> bool, lo: nat, hi: nat)
    requires lo <= hi && forall t | t in m :: lo <= t < hi
    ensures |Where(m, p)| <= hi - lo
    decreases hi
  {
    if lo == hi {
      assert Where(m, p) == {};
    } else {
      if hi - 1 in m {
        WhereRemoved(m, p, hi - 1);
      }
      WhereBelow(m - {hi - 1}, p, lo, hi - 1);
      assert hi - 1 !in m ==> m - {hi - 1} == m;
    }
  }
}
