/** Trimming, filtering and joining strings. */
module Text {

  function TrimLeft(s: string, drop: char -> bool): (t: string)
    ensures t != "" ==> !drop(t[0])
    ensures |t| <= |s|
  {
    if s == "" || !drop(s[0]) then s else TrimLeft(s[1..], drop)
  }

  function TrimRight(s: string, drop: char -> bool): (t: string)
    ensures t != "" ==> !drop(t[|t| - 1])
    ensures t <= s
  {
    if s == "" || !drop(s[|s| - 1]) then s else TrimRight(s[..|s| - 1], drop)
  }

  function Trim(s: string, drop: char -> bool): (t: string)
    ensures |t| <= |s|
    ensures t != "" ==> !drop(t[0]) && !drop(t[|t| - 1])
  {
    TrimRight(TrimLeft(s, drop), drop)
  }

  predicate All(s: string, p: char -> bool) {
    forall i | 0 <= i < |s| :: p(s[i])
  }

  /** Trimming only takes dropped characters off the two ends. */
  lemma {:induction false} TrimParts(s: string, drop: char -> bool) returns (left: string, right: string)
    ensures s == left + Trim(s, drop) + right
    ensures All(left, drop) && All(right, drop)
  {
    left := TrimLeftPart(s, drop);
    right := TrimRightPart(TrimLeft(s, drop), drop);
    assert left + (Trim(s, drop) + right) == left + Trim(s, drop) + right;
  }

  lemma {:induction false} TrimLeftPart(s: string, drop: char -> bool) returns (left: string)
    ensures s == left + TrimLeft(s, drop)
    ensures All(left, drop)
  {
    if s == "" || !drop(s[0]) {
      left := "";
    } else {
      var rest := TrimLeftPart(s[1..], drop);
      left := [s[0]] + rest;
      assert s == [s[0]] + s[1..];
      assert [s[0]] + rest + TrimLeft(s, drop) == [s[0]] + (rest + TrimLeft(s, drop));
    }
  }

  lemma {:induction false} TrimRightPart(s: string, drop: char -> bool) returns (right: string)
    ensures s == TrimRight(s, drop) + right
    ensures All(right, drop)
  {
    if s == "" || !drop(s[|s| - 1]) {
      right := "";
    } else {
      var rest := TrimRightPart(s[..|s| - 1], drop);
      right := rest + [s[|s| - 1]];
      assert s == s[..|s| - 1] + [s[|s| - 1]];
      assert TrimRight(s, drop) + (rest + [s[|s| - 1]]) == TrimRight(s, drop) + rest + [s[|s| - 1]];
    }
  }

  function Keep(s: string, keep: char -> bool): string {
    if s == "" then "" else (if keep(s[0]) then [s[0]] else "") + Keep(s[1..], keep)
  }

  lemma {:induction false} KeepConcat(a: string, b: string, keep: char -> bool)
    ensures Keep(a + b, keep) == Keep(a, keep) + Keep(b, keep)
  {
    if a == "" {
      assert a + b == b;
    } else {
      assert (a + b)[1..] == a[1..] + b && (a + b)[0] == a[0];
      KeepConcat(a[1..], b, keep);
      var first := if keep(a[0]) then [a[0]] else "";
      assert Keep(a + b, keep) == first + Keep(a[1..] + b, keep);
      assert first + (Keep(a[1..], keep) + Keep(b, keep)) == first + Keep(a[1..], keep) + Keep(b, keep);
    }
  }

  lemma {:induction false} KeepNone(s: string, keep: char -> bool)
    requires forall i | 0 <= i < |s| :: !keep(s[i])
    ensures Keep(s, keep) == ""
  {
    if s != "" {
      KeepNone(s[1..], keep);
    }
  }

  /** Trimming loses nothing that is kept, when no dropped character is kept. */
  lemma KeepTrim(s: string, drop: char -> bool, keep: char -> bool)
    requires forall c :: drop(c) ==> !keep(c)
    ensures Keep(Trim(s, drop), keep) == Keep(s, keep)
  {
    var left, right := TrimParts(s, drop);
    KeepConcat(left + Trim(s, drop), right, keep);
    KeepConcat(left, Trim(s, drop), keep);
    KeepNone(left, keep);
    KeepNone(right, keep);
  }

  function Flatten(parts: seq<string>): string {
    if parts == [] then "" else parts[0] + Flatten(parts[1..])
  }

  lemma {:induction false} FlattenConcat(a: seq<string>, b: seq<string>)
    ensures Flatten(a + b) == Flatten(a) + Flatten(b)
  {
    if a == [] {
      assert a + b == b;
    } else {
      assert (a + b)[1..] == a[1..] + b;
      FlattenConcat(a[1..], b);
    }
  }
}
