/** The theory shared by the two dynamic programs of the repository: both cut a
    row of units into a given number of non-empty contiguous groups, fill a table
    of best prefix costs, and read the cuts back from a table of back pointers.

    A cover is given by its boundaries b[0] = 0 < b[1] < ... < b[groups] = units;
    group i is the half-open range b[i]..b[i+1]. */
module ContiguousPartition {

  datatype Cost = Infinite | Finite(value: real)

  /** cost(i, start, end) is what group number i pays for the range start..end. */
  type GroupCost = (nat, nat, nat) -> real

  ghost predicate IsCover(b: seq<nat>, groups: nat, units: nat, cap: int)
  {
    && |b| == groups + 1
    && b[0] == 0
    && b[groups] == units
    && forall i | 0 <= i < groups :: b[i] < b[i + 1] <= b[i] + cap
  }

  /** The cost of the groups delimited by b, the first of which has number g. */
  ghost function CoverCost(cost: GroupCost, g: nat, b: seq<nat>): real
    requires |b| >= 1
    decreases |b|
  {
    if |b| == 1 then 0.0
    else cost(g, b[0], b[1]) + CoverCost(cost, g + 1, b[1..])
  }

  ghost predicate IsOptimalCover(b: seq<nat>, groups: nat, units: nat, cap: int, cost: GroupCost)
  {
    && IsCover(b, groups, units, cap)
    && forall c | IsCover(c, groups, units, cap) :: CoverCost(cost, 0, b) <= CoverCost(cost, 0, c)
  }

  /** Which covers exist is a question of two numbers. */
  ghost predicate Coverable(groups: nat, units: nat, cap: int) {
    if groups == 0 then units == 0 else groups <= units <= groups * cap
  }

  lemma {:induction false} BoundaryRange(b: seq<nat>, groups: nat, units: nat, cap: int, k: nat)
    requires IsCover(b, groups, units, cap)
    requires k <= groups
    ensures k <= b[k] <= k * cap
    ensures b[k] <= units - (groups - k)
  {
    BoundaryLow(b, groups, units, cap, k);
    BoundaryHigh(b, groups, units, cap, k);
  }

  lemma {:induction false} BoundaryLow(b: seq<nat>, groups: nat, units: nat, cap: int, k: nat)
    requires IsCover(b, groups, units, cap)
    requires k <= groups
    ensures k <= b[k] <= k * cap
  {
    if k > 0 {
      BoundaryLow(b, groups, units, cap, k - 1);
      assert b[k - 1] < b[k - 1 + 1] <= b[k - 1] + cap;
    }
  }

  lemma {:induction false} BoundaryHigh(b: seq<nat>, groups: nat, units: nat, cap: int, k: nat)
    requires IsCover(b, groups, units, cap)
    requires k <= groups
    ensures b[k] <= units - (groups - k)
    decreases groups - k
  {
    if k < groups {
      BoundaryHigh(b, groups, units, cap, k + 1);
      assert b[k] < b[k + 1];
    }
  }

  /** A cover with groups of at most cap units exists exactly when the unit count
      lies between the group count and cap times the group count. */
  lemma {:induction false} CoverExistsIff(groups: nat, units: nat, cap: int)
    ensures (exists b :: IsCover(b, groups, units, cap)) <==> Coverable(groups, units, cap)
  {
    if b :| IsCover(b, groups, units, cap) {
      BoundaryRange(b, groups, units, cap, groups);
    }
    if Coverable(groups, units, cap) {
      var b := SomeCover(groups, units, cap);
    }
  }

  lemma ProductFacts(a: nat, c: int)
    ensures c <= 0 ==> a * c <= 0
    ensures c >= 1 ==> a * c >= a
    ensures (a + 1) * c == a * c + c
  {
  }

  lemma CoverableStep(groups: nat, units: nat, cap: int) returns (rest: nat)
    requires groups > 0 && Coverable(groups, units, cap)
    ensures Coverable(groups - 1, rest, cap)
    ensures rest < units <= rest + cap
  {
    ProductFacts(groups - 1, cap);
    ProductFacts(groups, cap);
    if groups == 1 {
      rest := 0;
    } else {
      rest := if units - cap >= groups - 1 then units - cap else groups - 1;
    }
  }

  lemma {:induction false} SomeCover(groups: nat, units: nat, cap: int) returns (b: seq<nat>)
    requires Coverable(groups, units, cap)
    ensures IsCover(b, groups, units, cap)
    decreases groups
  {
    if groups == 0 {
      b := [0];
    } else {
      var rest := CoverableStep(groups, units, cap);
      var a := SomeCover(groups - 1, rest, cap);
      b := a + [units];
      forall i | 0 <= i < groups
        ensures b[i] < b[i + 1] <= b[i] + cap
      {
        if i < groups - 1 {
          assert a[i] < a[i + 1] <= a[i] + cap;
        }
      }
    }
  }

  /** The contents of a table, row by row. */
  ghost function Rows<T>(table: array2<T>): (rows: seq<seq<T>>)
    reads table
    ensures |rows| == table.Length0
    ensures forall i | 0 <= i < table.Length0 ::
              |rows[i]| == table.Length1 && forall j | 0 <= j < table.Length1 :: rows[i][j] == table[i, j]
  {
    seq(table.Length0, i requires 0 <= i < table.Length0 reads table =>
      seq(table.Length1, j requires 0 <= j < table.Length1 reads table => table[i, j]))
  }

  /** cell is the best way to extend the covers of p groups priced in row by one group
      ending at e and starting at one of lo..hi; from is where the best one starts. */
  ghost predicate BestCell(row: seq<Cost>, cell: Cost, from: int, cost: GroupCost, p: nat, e: nat, lo: nat, hi: nat)
    requires hi <= |row|
  {
    match cell
    case Infinite =>
      forall s | lo <= s < hi :: row[s].Infinite?
    case Finite(v) =>
      && lo <= from < hi
      && row[from].Finite?
      && v == row[from].value + cost(p, from, e)
      && (forall s | lo <= s < hi && row[s].Finite? :: v <= row[s].value + cost(p, s, e))
      && forall s | lo <= s < from && row[s].Finite? :: v < row[s].value + cost(p, s, e)
  }

  function FirstStart(p: nat, e: nat, cap: int): nat {
    if e - cap <= p then p else e - cap
  }

  ghost predicate IsTable<T>(rows: seq<seq<T>>, groups: nat, units: nat) {
    |rows| == groups + 1 && forall i | 0 <= i <= groups :: |rows[i]| == units + 1
  }

  /** Row 0 is exact, and so is every cell a cover of all units can pass through. */
  ghost predicate TableSettled(dp: seq<seq<Cost>>, back: seq<seq<int>>, cost: GroupCost, cap: int, groups: nat, units: nat)
  {
    && IsTable(dp, groups, units) && IsTable(back, groups, units)
    && dp[0][0] == Finite(0.0)
    && (forall e | 1 <= e <= units :: dp[0][e].Infinite?)
    && forall p, e | 0 <= p < groups && p + 1 <= e <= units - (groups - p - 1) ::
         CellSettled(dp, back, cost, cap, groups, units, p, e)
  }

  ghost predicate CellSettled(dp: seq<seq<Cost>>, back: seq<seq<int>>, cost: GroupCost, cap: int,
                              groups: nat, units: nat, p: nat, e: nat)
    requires IsTable(dp, groups, units) && IsTable(back, groups, units)
    requires p < groups && e <= units
  {
    BestCell(dp[p], dp[p + 1][e], back[p + 1][e], cost, p, e, FirstStart(p, e, cap), e)
  }

  /** Every boundary of every cover sits on a reachable cell. */
  lemma {:induction false} CoverCellsFinite(dp: seq<seq<Cost>>, back: seq<seq<int>>, cost: GroupCost, cap: int,
                                            groups: nat, units: nat, b: seq<nat>, k: nat)
    requires TableSettled(dp, back, cost, cap, groups, units)
    requires IsCover(b, groups, units, cap)
    requires k <= groups
    ensures b[k] <= units && dp[k][b[k]].Finite?
  {
    BoundaryRange(b, groups, units, cap, k);
    if k > 0 {
      CoverCellsFinite(dp, back, cost, cap, groups, units, b, k - 1);
      assert b[k - 1] < b[k - 1 + 1] <= b[k - 1] + cap;
      BoundaryRange(b, groups, units, cap, k - 1);
      assert CellSettled(dp, back, cost, cap, groups, units, k - 1, b[k]);
    }
  }

  /** When a cover exists, the last cell is not infinite. */
  lemma CoverableReached(dp: seq<seq<Cost>>, back: seq<seq<int>>, cost: GroupCost, cap: int, groups: nat, units: nat)
    requires TableSettled(dp, back, cost, cap, groups, units)
    requires Coverable(groups, units, cap)
    ensures dp[groups][units].Finite?
  {
    var c := SomeCover(groups, units, cap);
    CoverCellsFinite(dp, back, cost, cap, groups, units, c, groups);
  }

  /** The last cell is at most the cost of any cover. */
  lemma {:induction false} TableLowerBound(dp: seq<seq<Cost>>, back: seq<seq<int>>, cost: GroupCost, cap: int,
                                           groups: nat, units: nat, b: seq<nat>, k: nat)
    requires TableSettled(dp, back, cost, cap, groups, units)
    requires IsCover(b, groups, units, cap)
    requires k <= groups
    ensures dp[groups][units].Finite?
    ensures b[k] <= units && dp[k][b[k]].Finite?
    ensures dp[groups][units].value <= dp[k][b[k]].value + CoverCost(cost, k, b[k..])
    decreases groups - k
  {
    CoverCellsFinite(dp, back, cost, cap, groups, units, b, groups);
    CoverCellsFinite(dp, back, cost, cap, groups, units, b, k);
    if k < groups {
      TableLowerBound(dp, back, cost, cap, groups, units, b, k + 1);
      BoundaryRange(b, groups, units, cap, k);
      BoundaryRange(b, groups, units, cap, k + 1);
      assert b[k] < b[k + 1] <= b[k] + cap;
      assert CellSettled(dp, back, cost, cap, groups, units, k, b[k + 1]);
      assert b[k..][1..] == b[k + 1..];
    }
  }

  /** What the traceback has read so far: the boundaries of groups g, g + 1, ... */
  ghost predicate TracedSuffix(dp: seq<seq<Cost>>, cost: GroupCost, cap: int, groups: nat, units: nat, g: nat, b: seq<nat>)
    requires g <= groups && IsTable(dp, groups, units)
  {
    && |b| == groups - g + 1
    && g <= b[0] <= units - (groups - g)
    && b[groups - g] == units
    && (forall i | 0 <= i < groups - g :: b[i] < b[i + 1] <= b[i] + cap)
    && dp[g][b[0]].Finite?
    && dp[groups][units].Finite?
    && dp[groups][units].value == dp[g][b[0]].value + CoverCost(cost, g, b)
  }

  /** One traceback step lands on a valid back pointer; the missing-pointer branch
      after it is never taken. */
  lemma TraceStep(dp: seq<seq<Cost>>, back: seq<seq<int>>, cost: GroupCost, cap: int,
                  groups: nat, units: nat, g: nat, b: seq<nat>)
    requires TableSettled(dp, back, cost, cap, groups, units)
    requires 1 <= g <= groups
    requires TracedSuffix(dp, cost, cap, groups, units, g, b)
    ensures g - 1 <= back[g][b[0]] < b[0]
    ensures TracedSuffix(dp, cost, cap, groups, units, g - 1, [back[g][b[0]] as nat] + b)
  {
    assert CellSettled(dp, back, cost, cap, groups, units, g - 1, b[0]);
    var s := back[g][b[0]];
    var c := [s as nat] + b;
    assert CoverCost(cost, g - 1, c) == cost(g - 1, s, b[0]) + CoverCost(cost, g, b) by {
      assert c[1..] == b;
    }
    forall i | 0 <= i < groups - (g - 1)
      ensures c[i] < c[i + 1] <= c[i] + cap
    {
      if i > 0 {
        assert c[i] == b[i - 1] && c[i + 1] == b[i - 1 + 1];
      }
    }
  }

  /** A complete traceback is a cover, its cost is the last cell, and no cover is
      cheaper. */
  lemma TraceOptimal(dp: seq<seq<Cost>>, back: seq<seq<int>>, cost: GroupCost, cap: int,
                     groups: nat, units: nat, b: seq<nat>)
    requires TableSettled(dp, back, cost, cap, groups, units)
    requires TracedSuffix(dp, cost, cap, groups, units, 0, b)
    ensures IsOptimalCover(b, groups, units, cap, cost)
  {
    assert b[0] == 0;
    forall c | IsCover(c, groups, units, cap)
      ensures CoverCost(cost, 0, b) <= CoverCost(cost, 0, c)
    {
      TableLowerBound(dp, back, cost, cap, groups, units, c, 0);
      assert c[0..] == c;
    }
  }

  /** pairs lists the groups that b delimits. */
  ghost predicate PairsOf(pairs: seq<(nat, nat)>, b: seq<nat>) {
    && |b| == |pairs| + 1
    && forall i | 0 <= i < |pairs| :: pairs[i] == (b[i], b[i + 1])
  }

  ghost predicate AllInfinite(row: seq<Cost>) {
    forall e | 0 <= e < |row| :: row[e] == Infinite
  }

  /** The tables after the rows below p + 1 have been filled. */
  ghost predicate RowsFilled(dp: seq<seq<Cost>>, back: seq<seq<int>>, cost: GroupCost, cap: int,
                             groups: nat, units: nat, p: nat)
  {
    && IsTable(dp, groups, units) && IsTable(back, groups, units)
    && dp[0][0] == Finite(0.0)
    && (forall e | 1 <= e <= units :: dp[0][e].Infinite?)
    && (forall i | p < i <= groups :: AllInfinite(dp[i]))
    && forall q, e | 0 <= q < p <= groups && q + 1 <= e <= units - (groups - q - 1) ::
         CellSettled(dp, back, cost, cap, groups, units, q, e)
  }

  method EmptyTables(ghost cost: GroupCost, ghost cap: int, groups: nat, units: nat) returns (dp: array2<Cost>, back: array2<int>)
    ensures fresh(dp) && fresh(back)
    ensures dp.Length0 == back.Length0 == groups + 1 && dp.Length1 == back.Length1 == units + 1
    ensures RowsFilled(Rows(dp), Rows(back), cost, cap, groups, units, 0)
  {
    dp := new Cost[groups + 1, units + 1]((i, j) => Infinite);
    back := new int[groups + 1, units + 1]((i, j) => -1);
    dp[0, 0] := Finite(0.0);
    assert IsTable(Rows(dp), groups, units) && IsTable(Rows(back), groups, units);
  }

  lemma RowFilled(dp: seq<seq<Cost>>, back: seq<seq<int>>, dp': seq<seq<Cost>>, back': seq<seq<int>>,
                  cost: GroupCost, cap: int, groups: nat, units: nat, p: nat)
    requires RowsFilled(dp, back, cost, cap, groups, units, p) && p < groups
    requires IsTable(dp', groups, units) && IsTable(back', groups, units)
    requires forall i | 0 <= i <= groups && i != p + 1 :: dp'[i] == dp[i] && back'[i] == back[i]
    requires forall e | p + 1 <= e <= units - (groups - p - 1) :: CellSettled(dp', back', cost, cap, groups, units, p, e)
    ensures RowsFilled(dp', back', cost, cap, groups, units, p + 1)
  {
    forall q, e | 0 <= q < p && q + 1 <= e <= units - (groups - q - 1)
      ensures CellSettled(dp', back', cost, cap, groups, units, q, e)
    {
      assert CellSettled(dp, back, cost, cap, groups, units, q, e);
    }
  }

  /** Walks the back pointers from the last cell. */
  method TraceBack(dp: array2<Cost>, back: array2<int>, ghost cost: GroupCost, ghost cap: int, groups: nat, units: nat)
    returns (pairs: seq<(nat, nat)>, ghost b: seq<nat>)
    requires dp.Length0 == back.Length0 == groups + 1 && dp.Length1 == back.Length1 == units + 1
    requires groups <= units && TableSettled(Rows(dp), Rows(back), cost, cap, groups, units)
    requires dp[groups, units].Finite?
    ensures IsOptimalCover(b, groups, units, cap, cost)
    ensures |pairs| == groups && PairsOf(pairs, b)
  {
    ghost var table, pointers := Rows(dp), Rows(back);
    pairs, b := [], [units];
    var end := units;
    for k := groups downto 0
      invariant |pairs| == groups - k && PairsOf(pairs, b) && b[0] == end
      invariant TracedSuffix(table, cost, cap, groups, units, k, b)
    {
      assert TracedSuffix(table, cost, cap, groups, units, k + 1, b) && end <= units;
      var start := back[k + 1, end];
      assert start == pointers[k + 1][b[0]];
      TraceStep(table, pointers, cost, cap, groups, units, k + 1, b);
      pairs, b := [(start, end)] + pairs, [start] + b;
      end := start;
    }
    TraceOptimal(table, pointers, cost, cap, groups, units, b);
  }
}
