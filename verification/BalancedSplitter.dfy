/** Cutting a text into a given number of pieces of about equal length, preferably after
    punctuation. Two cut modes interact: while the rest of the text has room for pieces of
    the minimum size, cuts stay inside a window that keeps that room; otherwise they follow
    the even targets. */
module BalancedSplitter {
  import opened Integers
  import opened Text

  predicate IsPause(c: char) {
    c in "。！？!?；;，,、"
  }

  /** Python's round of the quotient n / d: halves go to the even neighbour. */
  function RoundHalfEven(n: nat, d: nat): nat
    requires d > 0
  {
    var q, r := n / d, n % d;
    if 2 * r < d || (2 * r == d && q % 2 == 0) then q else q + 1
  }

  lemma RoundNearest(n: nat, d: nat)
    requires d > 0
    ensures 2 * (RoundHalfEven(n, d) * d) - d <= 2 * n <= 2 * (RoundHalfEven(n, d) * d) + d
  {
    var q, r := n / d, n % d;
    assert n == q * d + r;
    assert (q + 1) * d == q * d + d;
  }

  /** Halfway between two integers, the even one is taken. */
  lemma HalvesToEven(n: nat, d: nat)
    requires d > 0
    ensures var r := RoundHalfEven(n, d); 2 * n == 2 * (r * d) + d || 2 * n + d == 2 * (r * d) ==> r % 2 == 0
  {
    var q, r := n / d, n % d;
    assert n == q * d + r;
    assert (q + 1) * d == q * d + d;
  }

  function Target(length: nat, count: nat, idx: nat): nat
    requires count > 0
  {
    RoundHalfEven(length * idx, count)
  }

  lemma Times(x: int, y: int, d: nat)
    requires x <= y
    ensures x * d <= y * d
  {
  }

  /** Two quotients more than one apart do not round to the same integer. */
  lemma RoundedApart(a: nat, b: nat, n: nat, step: nat, d: nat)
    requires step > d
    requires 2 * (a * d) - d <= 2 * n && 2 * (n + step) <= 2 * (b * d) + d
    ensures a < b
  {
    if b <= a {
      Times(b, a, d);
      assert false;
    }
  }

  /** With more characters than pieces, the targets increase strictly. */
  lemma TargetsIncrease(length: nat, count: nat, idx: nat)
    requires 0 < count < length
    ensures Target(length, count, idx) < Target(length, count, idx + 1)
  {
    var n := length * idx;
    assert length * (idx + 1) == n + length;
    RoundNearest(n, count);
    RoundNearest(n + length, count);
    RoundedApart(RoundHalfEven(n, count), RoundHalfEven(n + length, count), n, length, count);
  }

  lemma RoundedAtMost(t: nat, length: nat, count: nat)
    requires 0 < count && 2 * (t * count) - count <= 2 * (length * count)
    ensures t <= length
  {
    if t > length {
      Times(length + 1, t, count);
      assert false;
    }
  }

  lemma {:induction false} TargetsInside(length: nat, count: nat, idx: nat)
    requires 0 < count < length && idx <= count
    ensures Target(length, count, idx) <= length - (count - idx)
    decreases count - idx
  {
    if idx == count {
      RoundNearest(length * count, count);
      RoundedAtMost(RoundHalfEven(length * count, count), length, count);
    } else {
      TargetsIncrease(length, count, idx);
      TargetsInside(length, count, idx + 1);
    }
  }

  /** The text must leave size characters for each piece after this cut. */
  ghost predicate HasRoom(length: nat, prev: int, pieces: nat, size: nat) {
    length - prev >= size * pieces
  }

  predicate AfterPause(value: string, cut: int) {
    0 < cut <= |value| && IsPause(value[cut - 1])
  }

  ghost predicate PauseIn(value: string, lower: int, upper: int) {
    exists cut | lower < cut <= upper :: AfterPause(value, cut)
  }

  /** No pause is closer to the target, and none before it as close. */
  ghost predicate ClosestOf(value: string, lower: int, upper: int, target: nat, cut: nat) {
    forall c | lower < c <= upper && AfterPause(value, c) ::
      Distance(cut, target) < Distance(c, target) || (Distance(cut, target) == Distance(c, target) && cut <= c)
  }

  /** What the cut number idx may be, given the cut before it. */
  ghost predicate GoodCut(value: string, count: nat, size: nat, prev: nat, idx: nat, cut: nat)
    requires 0 < count && 1 <= idx <= count
  {
    var target := Target(|value|, count, idx);
    var lower, upper := prev + size, |value| - size * (count - idx);
    if lower > upper then
      cut == Min(Max(target, prev + 1), |value| - 1)
    else if PauseIn(value, lower, upper) then
      && lower < cut <= upper && AfterPause(value, cut)
      && ClosestOf(value, lower, upper, target, cut)
    else
      cut == Min(Max(target, lower), upper)
  }

  /** The position after the pause in lower..upper that is closest to target. */
  method ClosestPause(value: string, lower: nat, upper: nat, target: nat) returns (found: bool, cut: nat)
    requires lower <= upper < |value|
    ensures found <==> PauseIn(value, lower, upper)
    ensures found ==> lower < cut <= upper && AfterPause(value, cut) && ClosestOf(value, lower, upper, target, cut)
  {
    found, cut := false, lower;
    for pos := lower to upper
      invariant found ==> lower < cut <= pos && AfterPause(value, cut)
      invariant found <==> PauseIn(value, lower, pos)
      invariant found ==> ClosestOf(value, lower, pos, target, cut)
    {
      assert AfterPause(value, pos + 1) == IsPause(value[pos]);
      if IsPause(value[pos]) && (!found || Distance(pos + 1, target) < Distance(cut, target)) {
        found, cut := true, pos + 1;
      }
    }
  }

  ghost predicate Increasing(b: seq<nat>) {
    forall i | 0 <= i < |b| - 1 :: b[i] < b[i + 1]
  }

  method NextCut(value: string, count: nat, size: nat, prev: nat, idx: nat) returns (cut: nat)
    requires 2 <= count < |value| && size >= 1 && 1 <= idx < count
    requires HasRoom(|value|, prev, count - idx + 1, size) || prev == Target(|value|, count, idx - 1)
    ensures prev < cut < |value|
    ensures GoodCut(value, count, size, prev, idx, cut)
    ensures HasRoom(|value|, cut, count - idx, size) || cut == Target(|value|, count, idx)
    ensures HasRoom(|value|, prev, count - idx + 1, size) ==>
              prev + size <= cut && HasRoom(|value|, cut, count - idx, size)
  {
    var length := |value|;
    var target := RoundHalfEven(length * idx, count);
    var lower := Max(prev + size, 1);
    var upper := Min(length - size * (count - idx), length - 1);
    assert size * (count - idx + 1) == size * (count - idx) + size;
    assert size * (count - idx) >= 1;
    TargetsIncrease(length, count, idx - 1);
    TargetsInside(length, count, idx);
    if lower > upper {
      cut := Min(Max(target, prev + 1), length - 1);
    } else {
      var found, pause := ClosestPause(value, lower, upper, target);
      cut := if found then pause else Min(Max(target, lower), upper);
    }
  }

  ghost predicate CutGood(value: string, count: nat, size: nat, b: seq<nat>, i: nat)
    requires 0 < count && 1 <= i <= count && i < |b|
  {
    GoodCut(value, count, size, b[i - 1], i, b[i])
  }

  ghost predicate PiecesAtLeast(b: seq<nat>, size: nat) {
    forall i | 0 <= i < |b| - 1 :: b[i] + size <= b[i + 1]
  }

  /** The first n cuts, where roomy says that the whole text has room for its pieces. */
  ghost predicate CutsDone(value: string, count: nat, size: nat, b: seq<nat>, n: nat, roomy: bool)
    requires 2 <= count < |value| && 1 <= n <= count
  {
    && |b| == n && b[0] == 0 && b[n - 1] < |value| && Increasing(b)
    && (HasRoom(|value|, b[n - 1], count - n + 1, size) || (!roomy && b[n - 1] == Target(|value|, count, n - 1)))
    && (roomy ==> PiecesAtLeast(b, size))
    && forall i | 1 <= i < n :: CutGood(value, count, size, b, i)
  }

  lemma CutsExtend(value: string, count: nat, size: nat, b: seq<nat>, n: nat, roomy: bool, cut: nat)
    requires 2 <= count < |value| && 1 <= n < count
    requires CutsDone(value, count, size, b, n, roomy)
    requires b[n - 1] < cut < |value| && GoodCut(value, count, size, b[n - 1], n, cut)
    requires HasRoom(|value|, cut, count - n, size) || (!roomy && cut == Target(|value|, count, n))
    requires roomy ==> b[n - 1] + size <= cut
    ensures CutsDone(value, count, size, b + [cut], n + 1, roomy)
  {
    forall i | 1 <= i < n + 1
      ensures CutGood(value, count, size, b + [cut], i)
    {
      assert i < n ==> CutGood(value, count, size, b, i);
    }
  }

  lemma CutsClose(value: string, count: nat, size: nat, b: seq<nat>, roomy: bool)
    requires 2 <= count < |value|
    requires CutsDone(value, count, size, b, count, roomy)
    ensures Increasing(b + [|value|])
    ensures roomy ==> PiecesAtLeast(b + [|value|], size)
    ensures forall i | 1 <= i < count :: CutGood(value, count, size, b + [|value|], i)
  {
    forall i | 1 <= i < count
      ensures CutGood(value, count, size, b + [|value|], i)
    {
      assert CutGood(value, count, size, b, i);
    }
  }

  /** All boundaries, for any minimum size. The even targets and the window cuts together
      increase strictly, and once there is room for minimum-size pieces there always is. */
  method Boundaries(value: string, count: nat, size: nat) returns (b: seq<nat>)
    requires 2 <= count < |value| && size >= 1
    ensures |b| == count + 1 && b[0] == 0 && b[count] == |value| && Increasing(b)
    ensures forall i | 1 <= i < count :: CutGood(value, count, size, b, i)
    ensures HasRoom(|value|, 0, count, size) <==> PiecesAtLeast(b, size)
  {
    b := [0];
    ghost var roomy := HasRoom(|value|, 0, count, size);
    assert Target(|value|, count, 0) == 0;
    for idx := 1 to count
      invariant CutsDone(value, count, size, b, idx, roomy)
    {
      var cut := NextCut(value, count, size, b[idx - 1], idx);
      CutsExtend(value, count, size, b, idx, roomy, cut);
      b := b + [cut];
    }
    CutsClose(value, count, size, b, roomy);
    b := b + [|value|];
    if PiecesAtLeast(b, size) {
      PiecesAddUp(b, count, size);
    }
  }

  lemma {:induction false} PiecesAddUp(b: seq<nat>, n: nat, size: nat)
    requires n < |b| && PiecesAtLeast(b, size)
    ensures b[n] >= n * size
  {
    if n > 0 {
      PiecesAddUp(b, n - 1, size);
      assert b[n - 1] + size <= b[n - 1 + 1];
      assert n * size == (n - 1) * size + size;
    }
  }

  lemma {:induction false} BoundariesOrdered(b: seq<nat>, i: nat, j: nat)
    requires Increasing(b) && i <= j < |b|
    ensures b[i] <= b[j]
  {
    if i < j {
      BoundariesOrdered(b, i, j - 1);
      assert b[j - 1] < b[j - 1 + 1];
    }
  }

  function MinSize(length: nat, count: nat): nat
    requires count > 0
  {
    Max(8, 11 * length / (20 * count))
  }

  /** Piece i is the text between two boundaries. */
  ghost predicate PieceAt(pieces: seq<string>, value: string, b: seq<nat>, i: nat) {
    i < |pieces| && i + 1 < |b| && b[i] <= b[i + 1] <= |value| && pieces[i] == value[b[i]..b[i + 1]]
  }

  /** The pieces between the boundaries. */
  method Slice(value: string, b: seq<nat>) returns (pieces: seq<string>)
    requires |b| >= 1 && b[0] == 0 && b[|b| - 1] == |value| && Increasing(b)
    ensures Flatten(pieces) == value && |pieces| == |b| - 1
    ensures forall i | 0 <= i < |pieces| :: PieceAt(pieces, value, b, i)
  {
    pieces := [];
    for idx := 0 to |b| - 1
      invariant b[idx] <= |value|
      invariant |pieces| == idx && Flatten(pieces) == value[..b[idx]]
      invariant forall i | 0 <= i < idx :: PieceAt(pieces, value, b, i)
    {
      assert b[idx] < b[idx + 1];
      BoundariesOrdered(b, idx + 1, |b| - 1);
      var piece := value[b[idx]..b[idx + 1]];
      FlattenConcat(pieces, [piece]);
      assert Flatten([piece]) == piece + Flatten([]);
      assert value[..b[idx]] + piece == value[..b[idx + 1]];
      ghost var before := pieces;
      pieces := pieces + [piece];
      forall i | 0 <= i < idx + 1
        ensures PieceAt(pieces, value, b, i)
      {
        assert i < idx ==> PieceAt(before, value, b, i);
      }
    }
  }

  lemma SliceSizes(pieces: seq<string>, b: seq<nat>, size: nat)
    requires |b| == |pieces| + 1 && Increasing(b)
    requires forall i | 0 <= i < |pieces| :: |pieces[i]| == b[i + 1] - b[i]
    ensures forall i | 0 <= i < |pieces| :: pieces[i] != ""
    ensures PiecesAtLeast(b, size) <==> forall i | 0 <= i < |pieces| :: |pieces[i]| >= size
  {
    forall i | 0 <= i < |pieces|
      ensures pieces[i] != ""
    {
      assert b[i] < b[i + 1] && |pieces[i]| == b[i + 1] - b[i];
    }
    if PiecesAtLeast(b, size) {
      forall i | 0 <= i < |pieces|
        ensures |pieces[i]| >= size
      {
        assert b[i] + size <= b[i + 1];
      }
    }
    if forall i | 0 <= i < |pieces| :: |pieces[i]| >= size {
      forall i | 0 <= i < |b| - 1
        ensures b[i] + size <= b[i + 1]
      {
        assert |pieces[i]| == b[i + 1] - b[i];
      }
    }
  }

  /** The pieces between good cuts. */
  ghost predicate Balanced(pieces: seq<string>, value: string, count: nat, size: nat, b: seq<nat>) {
    && 2 <= count == |pieces| == |b| - 1 && b[0] == 0 && b[count] == |value|
    && (forall i | 1 <= i < count :: CutGood(value, count, size, b, i))
    && forall i | 0 <= i < count :: PieceAt(pieces, value, b, i)
  }

  /** Exactly count non-empty pieces, none below the given size if and only if the text
      is long enough for that. */
  method SplitBySize(value: string, count: nat, size: nat) returns (pieces: seq<string>)
    requires 2 <= count < |value| && size >= 1
    ensures Flatten(pieces) == value && |pieces| == count
    ensures forall i | 0 <= i < |pieces| :: pieces[i] != ""
    ensures HasRoom(|value|, 0, count, size) <==> forall i | 0 <= i < |pieces| :: |pieces[i]| >= size
    ensures exists b :: Balanced(pieces, value, count, size, b)
  {
    var b := Boundaries(value, count, size);
    pieces := Slice(value, b);
    forall i | 0 <= i < |pieces|
      ensures |pieces[i]| == b[i + 1] - b[i]
    {
      assert PieceAt(pieces, value, b, i);
    }
    SliceSizes(pieces, b, size);
    assert Balanced(pieces, value, count, size, b);
  }

  /** The text as it is, or its pieces between good cuts. */
  ghost predicate IsSplit(pieces: seq<string>, value: string, count: nat) {
    if 2 <= count < |value| then exists b :: Balanced(pieces, value, count, MinSize(|value|, count), b)
    else pieces == [value]
  }

  /** Texts that are not longer than the number of pieces stay whole; every other text is
      cut into exactly that many pieces. */
  method Split(value: string, count: nat) returns (pieces: seq<string>)
    ensures IsSplit(pieces, value, count)
    ensures Flatten(pieces) == value
    ensures |pieces| == if 2 <= count < |value| then count else 1
    ensures 2 <= count < |value| ==> forall i | 0 <= i < |pieces| :: pieces[i] != ""
    ensures 2 <= count < |value| ==>
              (HasRoom(|value|, 0, count, MinSize(|value|, count)) <==>
               forall i | 0 <= i < |pieces| :: |pieces[i]| >= MinSize(|value|, count))
  {
    if count <= 1 || |value| <= count {
      pieces := [value];
      assert Flatten([value]) == value + Flatten([]);
    } else {
      pieces := SplitBySize(value, count, MinSize(|value|, count));
    }
  }
}
