/** The dynamic program of the script splitter: cut weighted sentence atoms into a
    given number of groups whose weights stray as little as possible from their mean. */
module WeightedPartition {
  import opened ContiguousPartition

  function Sum(ws: seq<real>): real {
    if ws == [] then 0.0 else Sum(ws[..|ws| - 1]) + ws[|ws| - 1]
  }

  function Square(x: real): real {
    x * x
  }

  /** The weight of atoms start..end, off by how much from the mean, squared. */
  ghost function Deviation(ws: seq<real>, total: nat): GroupCost
    requires total > 0
  {
    (g: nat, start: nat, end: nat) =>
      if start <= end <= |ws| then Square(Sum(ws[start..end]) - Sum(ws) / total as real) else 0.0
  }

  /** Prefix sums answer range sums. */
  lemma {:induction false} PrefixDifference(ws: seq<real>, start: nat, end: nat)
    requires start <= end <= |ws|
    ensures Sum(ws[..end]) - Sum(ws[..start]) == Sum(ws[start..end])
    decreases end
  {
    if start < end {
      PrefixDifference(ws, start, end - 1);
      assert ws[..end][..end - 1] == ws[..end - 1];
      assert ws[start..end][..end - start - 1] == ws[start..end - 1];
    }
  }

  method PrefixSums(ws: seq<real>) returns (prefix: seq<real>)
    ensures |prefix| == |ws| + 1
    ensures forall i | 0 <= i <= |ws| :: prefix[i] == Sum(ws[..i])
  {
    prefix := [0.0];
    for i := 0 to |ws|
      invariant |prefix| == i + 1
      invariant forall j | 0 <= j <= i :: prefix[j] == Sum(ws[..j])
    {
      assert ws[..i + 1][..i] == ws[..i];
      prefix := prefix + [prefix[i] + ws[i]];
    }
  }

  /** Prices ranges by prefix sums, as the loops below do. */
  ghost predicate PricedBy(cost: GroupCost, prefix: seq<real>, target: real) {
    forall g, start, end | 0 <= start <= end < |prefix| ::
      cost(g, start, end) == Square(prefix[end] - prefix[start] - target)
  }

  /** The innermost loop: the best last group for the first p + 1 groups ending at end. */
  method FillCell(prefix: seq<real>, target: real, ghost cost: GroupCost, p: nat, end: nat,
                  dp: array2<Cost>, back: array2<int>)
    requires p + 1 < dp.Length0 == back.Length0 && p < end < dp.Length1 == back.Length1
    requires |prefix| == dp.Length1 && PricedBy(cost, prefix, target)
    requires dp[p + 1, end] == Infinite
    modifies dp, back
    ensures BestCell(Rows(dp)[p], dp[p + 1, end], back[p + 1, end], cost, p, end, p, end)
    ensures forall i, e | 0 <= i < dp.Length0 && 0 <= e < dp.Length1 && (i != p + 1 || e != end) ::
              dp[i, e] == old(dp[i, e]) && back[i, e] == old(back[i, e])
  {
    ghost var row := Rows(dp)[p];
    for start := p to end
      invariant forall i, e | 0 <= i < dp.Length0 && 0 <= e < dp.Length1 && (i != p + 1 || e != end) ::
                  dp[i, e] == old(dp[i, e]) && back[i, e] == old(back[i, e])
      invariant BestCell(row, dp[p + 1, end], back[p + 1, end], cost, p, end, p, start)
    {
      var weight := prefix[end] - prefix[start];
      assert dp[p, start] == row[start] && cost(p, start, end) == Square(weight - target);
      if dp[p, start].Finite? {
        var score := dp[p, start].value + Square(weight - target);
        if dp[p + 1, end].Infinite? || score < dp[p + 1, end].value {
          dp[p + 1, end] := Finite(score);
          back[p + 1, end] := start;
        }
      }
    }
    assert Rows(dp)[p] == row;
  }

  method FillRow(prefix: seq<real>, target: real, ghost cost: GroupCost, groups: nat, units: nat, p: nat,
                 dp: array2<Cost>, back: array2<int>)
    requires dp.Length0 == back.Length0 == groups + 1 && dp.Length1 == back.Length1 == units + 1
    requires |prefix| == units + 1 && PricedBy(cost, prefix, target)
    requires p < groups && p < units
    requires AllInfinite(Rows(dp)[p + 1])
    modifies dp, back
    ensures forall e | p < e <= units :: CellSettled(Rows(dp), Rows(back), cost, units, groups, units, p, e)
    ensures forall i | 0 <= i <= groups && i != p + 1 ::
              Rows(dp)[i] == old(Rows(dp)[i]) && Rows(back)[i] == old(Rows(back)[i])
  {
    ghost var row := Rows(dp)[p];
    for end := p + 1 to units + 1
      invariant forall i, e | 0 <= i <= groups && 0 <= e <= units && (i != p + 1 || e >= end) ::
                  dp[i, e] == old(dp[i, e]) && back[i, e] == old(back[i, e])
      invariant forall e | p < e < end :: CellSettled(Rows(dp), Rows(back), cost, units, groups, units, p, e)
    {
      assert dp[p + 1, end] == old(Rows(dp)[p + 1][end]);
      ghost var before, pointers := Rows(dp), Rows(back);
      FillCell(prefix, target, cost, p, end, dp, back);
      assert Rows(dp)[p] == before[p];
      forall e | p < e < end
        ensures CellSettled(Rows(dp), Rows(back), cost, units, groups, units, p, e)
      {
        assert CellSettled(before, pointers, cost, units, groups, units, p, e);
      }
    }
    forall i | 0 <= i <= groups && i != p + 1
      ensures Rows(dp)[i] == old(Rows(dp)[i]) && Rows(back)[i] == old(Rows(back)[i])
    {
      assert |Rows(dp)[i]| == |old(Rows(dp)[i])| && |Rows(back)[i]| == |old(Rows(back)[i])|;
    }
  }

  method FillTables(prefix: seq<real>, target: real, ghost cost: GroupCost, groups: nat, units: nat)
    returns (dp: array2<Cost>, back: array2<int>)
    requires |prefix| == units + 1 && PricedBy(cost, prefix, target)
    requires 1 <= groups <= units
    ensures dp.Length0 == back.Length0 == groups + 1 && dp.Length1 == back.Length1 == units + 1
    ensures TableSettled(Rows(dp), Rows(back), cost, units, groups, units)
  {
    dp, back := EmptyTables(cost, units, groups, units);
    for p := 0 to groups
      invariant RowsFilled(Rows(dp), Rows(back), cost, units, groups, units, p)
    {
      ghost var before, pointers := Rows(dp), Rows(back);
      FillRow(prefix, target, cost, groups, units, p, dp, back);
      RowFilled(before, pointers, Rows(dp), Rows(back), cost, units, groups, units, p);
    }
  }

  lemma DeviationPriced(ws: seq<real>, total: nat, prefix: seq<real>, target: real)
    requires total > 0 && target == Sum(ws) / total as real
    requires |prefix| == |ws| + 1 && forall i | 0 <= i <= |ws| :: prefix[i] == Sum(ws[..i])
    ensures PricedBy(Deviation(ws, total), prefix, target)
  {
    forall g: nat, start: nat, end: nat | start <= end < |prefix|
      ensures Deviation(ws, total)(g, start, end) == Square(prefix[end] - prefix[start] - target)
    {
      PrefixDifference(ws, start, end);
      DeviationAt(ws, total, g, start, end, target);
    }
  }

  lemma DeviationAt(ws: seq<real>, total: nat, g: nat, start: nat, end: nat, target: real)
    requires total > 0 && start <= end <= |ws| && target == Sum(ws) / total as real
    ensures Deviation(ws, total)(g, start, end) == Square(Sum(ws[start..end]) - target)
  {
  }

  /** Fills the tables row by row, then walks the back pointers. */
  method Partition(ws: seq<real>, total: nat) returns (pairs: seq<(nat, nat)>, ghost b: seq<nat>)
    requires 1 <= total <= |ws|
    ensures IsOptimalCover(b, total, |ws|, |ws|, Deviation(ws, total))
    ensures |pairs| == total && PairsOf(pairs, b)
  {
    var units := |ws|;
    var prefix := PrefixSums(ws);
    assert ws[..units] == ws;
    var target := prefix[units] / total as real;
    DeviationPriced(ws, total, prefix, target);
    var dp, back := FillTables(prefix, target, Deviation(ws, total), total, units);
    ProductFacts(total, units);
    CoverableReached(Rows(dp), Rows(back), Deviation(ws, total), units, total, units);
    pairs, b := TraceBack(dp, back, Deviation(ws, total), units, total, units);
  }
}
