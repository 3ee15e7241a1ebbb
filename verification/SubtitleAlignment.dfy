/** Aligning subtitle chunks to timed speech-recognition units: the windowed dynamic
    program over unit groups, and the greedy aligner over words. How well a group of
    units matches a chunk (text similarity and length) is a parameter. */
module SubtitleAlignment {
  import opened ContiguousPartition
  import opened Reals
  import opened SubtitleTiming

  /** fit(chunk, start, end): the length and similarity penalties of one group. */
  type Fit = (nat, nat, nat) -> real

  ghost function AlignmentCost(fit: Fit): GroupCost {
    (chunk: nat, start: nat, end: nat) => fit(chunk, start, end) + GroupingPenalty(start, end)
  }

  function GroupingPenalty(start: nat, end: nat): (penalty: real)
    ensures penalty >= 0.0
  {
    (if end - start - 1 >= 0 then end - start - 1 else 0) as real * 0.12
  }

  /** A unit alone costs its fit, and every further unit 0.12. */
  lemma CostOfUnits(fit: Fit, chunk: nat, start: nat, end: nat)
    requires start < end
    ensures AlignmentCost(fit)(chunk, start, start + 1) == fit(chunk, start, start + 1)
    ensures AlignmentCost(fit)(chunk, start, end + 1) - fit(chunk, start, end + 1)
         == AlignmentCost(fit)(chunk, start, end) - fit(chunk, start, end) + 0.12
  {
  }

  method FillCell(fit: Fit, cap: int, p: nat, end: nat, dp: array2<Cost>, back: array2<int>)
    requires p + 1 < dp.Length0 == back.Length0 && p < end < dp.Length1 == back.Length1
    requires dp[p + 1, end] == Infinite
    modifies dp, back
    ensures BestCell(Rows(dp)[p], dp[p + 1, end], back[p + 1, end], AlignmentCost(fit), p, end, FirstStart(p, end, cap), end)
    ensures forall i, e | 0 <= i < dp.Length0 && 0 <= e < dp.Length1 && (i != p + 1 || e != end) ::
              dp[i, e] == old(dp[i, e]) && back[i, e] == old(back[i, e])
  {
    ghost var row := Rows(dp)[p];
    ghost var cost := AlignmentCost(fit);
    var first := FirstStart(p, end, cap);
    var start := first;
    while start < end
      invariant forall i, e | 0 <= i < dp.Length0 && 0 <= e < dp.Length1 && (i != p + 1 || e != end) ::
                  dp[i, e] == old(dp[i, e]) && back[i, e] == old(back[i, e])
      invariant first <= start && (start <= end || start == first)
      invariant dp[p + 1, end].Finite? ==> start <= end
      invariant BestCell(row, dp[p + 1, end], back[p + 1, end], cost, p, end, first, if start <= end then start else end)
    {
      assert dp[p, start] == row[start];
      if dp[p, start].Finite? {
        var score := dp[p, start].value + fit(p, start, end) + GroupingPenalty(start, end);
        assert score == row[start].value + cost(p, start, end);
        if dp[p + 1, end].Infinite? || score < dp[p + 1, end].value {
          dp[p + 1, end] := Finite(score);
          back[p + 1, end] := start;
        }
      }
      start := start + 1;
    }
    assert Rows(dp)[p] == row;
  }

  /** Only the ends that leave a unit for every chunk still to come are filled. */
  method FillRow(fit: Fit, cap: int, groups: nat, units: nat, p: nat, dp: array2<Cost>, back: array2<int>)
    requires dp.Length0 == back.Length0 == groups + 1 && dp.Length1 == back.Length1 == units + 1
    requires p < groups <= units
    requires AllInfinite(Rows(dp)[p + 1])
    modifies dp, back
    ensures forall e | p + 1 <= e <= units - (groups - p - 1) ::
              CellSettled(Rows(dp), Rows(back), AlignmentCost(fit), cap, groups, units, p, e)
    ensures forall i | 0 <= i <= groups && i != p + 1 ::
              Rows(dp)[i] == old(Rows(dp)[i]) && Rows(back)[i] == old(Rows(back)[i])
  {
    ghost var cost := AlignmentCost(fit);
    for end := p + 1 to units - (groups - p - 1) + 1
      invariant forall i, e | 0 <= i <= groups && 0 <= e <= units && (i != p + 1 || e >= end) ::
                  dp[i, e] == old(dp[i, e]) && back[i, e] == old(back[i, e])
      invariant forall e | p < e < end :: CellSettled(Rows(dp), Rows(back), cost, cap, groups, units, p, e)
    {
      assert dp[p + 1, end] == old(Rows(dp)[p + 1][end]);
      ghost var before, pointers := Rows(dp), Rows(back);
      FillCell(fit, cap, p, end, dp, back);
      assert Rows(dp)[p] == before[p];
      forall e | p < e < end
        ensures CellSettled(Rows(dp), Rows(back), cost, cap, groups, units, p, e)
      {
        assert CellSettled(before, pointers, cost, cap, groups, units, p, e);
      }
    }
    forall i | 0 <= i <= groups && i != p + 1
      ensures Rows(dp)[i] == old(Rows(dp)[i]) && Rows(back)[i] == old(Rows(back)[i])
    {
      assert |Rows(dp)[i]| == |old(Rows(dp)[i])| && |Rows(back)[i]| == |old(Rows(back)[i])|;
    }
  }

  method FillTables(fit: Fit, cap: int, groups: nat, units: nat) returns (dp: array2<Cost>, back: array2<int>)
    requires groups <= units
    ensures dp.Length0 == back.Length0 == groups + 1 && dp.Length1 == back.Length1 == units + 1
    ensures TableSettled(Rows(dp), Rows(back), AlignmentCost(fit), cap, groups, units)
  {
    ghost var cost := AlignmentCost(fit);
    dp, back := EmptyTables(cost, cap, groups, units);
    for p := 0 to groups
      invariant RowsFilled(Rows(dp), Rows(back), cost, cap, groups, units, p)
    {
      ghost var before, pointers := Rows(dp), Rows(back);
      FillRow(fit, cap, groups, units, p, dp, back);
      RowFilled(before, pointers, Rows(dp), Rows(back), cost, cap, groups, units, p);
    }
  }

  /** The groups of units the chunks are aligned to, in order, or nothing. */
  method GroupUnits(fit: Fit, cap: int, chunks: nat, units: nat)
    returns (groups: seq<(nat, nat)>, ghost b: seq<nat>)
    ensures groups != [] <==> 1 <= chunks <= units <= chunks * cap
    ensures groups != [] ==> |groups| == chunks && PairsOf(groups, b)
    ensures groups != [] ==> IsOptimalCover(b, chunks, units, cap, AlignmentCost(fit))
    ensures groups == [] && chunks > 0 ==> forall c :: !IsCover(c, chunks, units, cap)
  {
    groups, b := [], [];
    CoverExistsIff(chunks, units, cap);
    if chunks == 0 || units == 0 || units < chunks {
      return;
    }
    var dp, back := FillTables(fit, cap, chunks, units);
    if dp[chunks, units].Infinite? {
      if Coverable(chunks, units, cap) {
        CoverableReached(Rows(dp), Rows(back), AlignmentCost(fit), cap, chunks, units);
        assert false;
      }
      return;
    }
    groups, b := TraceBack(dp, back, AlignmentCost(fit), cap, chunks, units);
  }

  // ---- from groups to dialogue ranges

  /** The time from the start of the first unit of a group to the end of its last. */
  function GroupRange(units: seq<Range>, start: nat, end: nat): (r: Range)
    requires start < end <= |units|
    ensures units[start].start <= r.start && 0.0 <= r.start <= r.end && units[end - 1].end <= r.end
    ensures r.start == units[start].start || r.start == 0.0
    ensures r.end == units[end - 1].end || r.end == r.start
  {
    var from := Max(units[start].start, 0.0);
    Range(from, Max(units[end - 1].end, from))
  }

  ghost predicate GroupsForward(groups: seq<(nat, nat)>, units: nat) {
    && (forall i | 0 <= i < |groups| :: groups[i].0 < groups[i].1 <= units)
    && forall i | 0 <= i < |groups| - 1 :: groups[i].1 <= groups[i + 1].0
  }

  function GroupRanges(units: seq<Range>, groups: seq<(nat, nat)>): seq<Range>
    requires forall i | 0 <= i < |groups| :: groups[i].0 < groups[i].1 <= |units|
  {
    seq(|groups|, i requires 0 <= i < |groups| => GroupRange(units, groups[i].0, groups[i].1))
  }

  lemma CoverForward(groups: seq<(nat, nat)>, b: seq<nat>, units: nat, cap: int)
    requires IsCover(b, |groups|, units, cap) && PairsOf(groups, b)
    ensures GroupsForward(groups, units)
  {
    forall i | 0 <= i < |groups|
      ensures groups[i].0 < groups[i].1 <= units
    {
      assert groups[i] == (b[i], b[i + 1]) && b[i] < b[i + 1];
      BoundaryRange(b, |groups|, units, cap, i + 1);
    }
    forall i | 0 <= i < |groups| - 1
      ensures groups[i].1 <= groups[i + 1].0
    {
      assert groups[i] == (b[i], b[i + 1]) && groups[i + 1] == (b[i + 1], b[i + 1 + 1]);
    }
  }

  /** Aligns the chunks to all units with a cheapest cover; the dialogue ranges follow
      the groups. There is no alignment exactly when there is no cover. */
  method AlignToUnits(fit: Fit, cap: int, chunks: nat, units: seq<Range>, duration: real)
    returns (ranges: seq<Range>, ghost groups: seq<(nat, nat)>, ghost b: seq<nat>)
    ensures ranges == [] <==> !(1 <= chunks <= |units| <= chunks * cap)
    ensures ranges != [] ==>
              && |ranges| == |groups| == chunks && PairsOf(groups, b) && GroupsForward(groups, |units|)
              && IsOptimalCover(b, chunks, |units|, cap, AlignmentCost(fit))
              && ranges == CoerceFrom(GroupRanges(units, groups), 0.0, TrackLength(duration))
  {
    var found;
    found, b := GroupUnits(fit, cap, chunks, |units|);
    groups := found;
    if found == [] {
      return [], [], b;
    }
    CoverForward(found, b, |units|, cap);
    var raw := [];
    for i := 0 to |found|
      invariant raw == GroupRanges(units, found)[..i]
    {
      raw := raw + [GroupRange(units, found[i].0, found[i].1)];
    }
    assert raw == GroupRanges(units, found);
    ranges := CoerceMonotonic(raw, duration);
    CoerceTrack(raw, 0.0, TrackLength(duration));
  }

  // ---- the greedy aligner over words

  /** The groups the greedy loop may give the next chunk: skip at most maxSkip words,
      take at most maxGroup, and leave one word for each remaining chunk. */
  ghost predicate Candidate(words: nat, remaining: nat, cursor: nat, maxGroup: int, maxSkip: int, start: nat, end: nat) {
    && cursor <= start <= cursor + (if maxSkip >= 0 then maxSkip else 0)
    && start < end <= start + (if maxGroup >= 1 then maxGroup else 1)
    && end + remaining <= words
  }

  function WordCost(fit: Fit, chunk: nat, cursor: nat, start: nat, end: nat): real {
    fit(chunk, start, end)
    + (if start >= cursor then start - cursor else 0) as real * 0.08
    + (if end - start - 1 >= 0 then end - start - 1 else 0) as real * 0.05
  }

  /** A word alone at the cursor costs its fit, every skipped word 0.08 and every further
      word 0.05. */
  lemma CostOfWords(fit: Fit, chunk: nat, cursor: nat, start: nat, end: nat)
    requires cursor <= start < end
    ensures WordCost(fit, chunk, cursor, cursor, cursor + 1) == fit(chunk, cursor, cursor + 1)
    ensures WordCost(fit, chunk, cursor, start, end + 1) - fit(chunk, start, end + 1)
         == WordCost(fit, chunk, cursor, start, end) - fit(chunk, start, end) + 0.05
    ensures WordCost(fit, chunk, cursor, start + 1, end + 1) - fit(chunk, start + 1, end + 1)
         == WordCost(fit, chunk, cursor, start, end) - fit(chunk, start, end) + 0.08
  {
  }

  /** No group tried is cheaper, and none tried before is as cheap. */
  ghost predicate NotBeaten(fit: Fit, chunk: nat, cursor: nat, start: nat, end: nat, s: nat, e: nat) {
    && WordCost(fit, chunk, cursor, start, end) <= WordCost(fit, chunk, cursor, s, e)
    && (s < start || (s == start && e < end) ==>
          WordCost(fit, chunk, cursor, start, end) < WordCost(fit, chunk, cursor, s, e))
  }

  ghost predicate BestChoice(fit: Fit, chunk: nat, words: nat, remaining: nat, cursor: nat, maxGroup: int, maxSkip: int,
                             start: nat, end: nat)
  {
    && Candidate(words, remaining, cursor, maxGroup, maxSkip, start, end)
    && forall s, e | Candidate(words, remaining, cursor, maxGroup, maxSkip, s, e) ::
         NotBeaten(fit, chunk, cursor, start, end, s, e)
  }

  /** The two inner loops. When a word is left for this chunk and each remaining one, a
      choice is always found. */
  method ChooseGroup(fit: Fit, chunk: nat, words: nat, remaining: nat, cursor: nat, maxGroup: int, maxSkip: int)
    returns (start: nat, end: nat)
    requires cursor + 1 + remaining <= words
    ensures BestChoice(fit, chunk, words, remaining, cursor, maxGroup, maxSkip, start, end)
  {
    var latest := words - remaining - 1;
    var skip := if maxSkip >= 0 then maxSkip else 0;
    var limit := if latest <= cursor + skip then latest else cursor + skip;
    var group := if maxGroup >= 1 then maxGroup else 1;
    var found := false;
    start, end := cursor, cursor;
    for s := cursor to limit + 1
      invariant found <==> s > cursor
      invariant found ==> Candidate(words, remaining, cursor, maxGroup, maxSkip, start, end) && start < s
      invariant forall s': nat, e': nat | Candidate(words, remaining, cursor, maxGroup, maxSkip, s', e') && s' < s ::
                  NotBeaten(fit, chunk, cursor, start, end, s', e')
    {
      var maxEnd := if words - remaining <= s + group then words - remaining else s + group;
      for e := s + 1 to maxEnd + 1
        invariant found <==> (s > cursor || e > s + 1)
        invariant found ==> Candidate(words, remaining, cursor, maxGroup, maxSkip, start, end)
        invariant found ==> start < s || (start == s && end < e)
        invariant forall s': nat, e': nat | && Candidate(words, remaining, cursor, maxGroup, maxSkip, s', e')
                                  && (s' < s || (s' == s && e' < e)) ::
                    NotBeaten(fit, chunk, cursor, start, end, s', e')
      {
        assert Candidate(words, remaining, cursor, maxGroup, maxSkip, s, e);
        if !found || WordCost(fit, chunk, cursor, s, e) < WordCost(fit, chunk, cursor, start, end) {
          found, start, end := true, s, e;
        }
      }
    }
  }

  ghost function CursorBefore(groups: seq<(nat, nat)>, i: nat): nat
    requires i <= |groups|
  {
    if i == 0 then 0 else groups[i - 1].1
  }

  ghost predicate GreedyGroup(fit: Fit, chunks: nat, words: nat, maxGroup: int, maxSkip: int, groups: seq<(nat, nat)>, i: nat)
    requires i < |groups| && i < chunks
  {
    BestChoice(fit, i, words, chunks - i - 1, CursorBefore(groups, i), maxGroup, maxSkip, groups[i].0, groups[i].1)
  }

  /** Aligns chunk after chunk to the cheapest nearby run of words. It gives up exactly
      when there is no chunk, a chunk without text, or less than a word per chunk: the
      case of no choice never arises. */
  method AlignToWords(fit: Fit, hasText: seq<bool>, words: seq<Range>, maxGroup: int, maxSkip: int, duration: real)
    returns (ranges: seq<Range>, ghost groups: seq<(nat, nat)>)
    ensures ranges == [] <==> hasText == [] || |words| < |hasText| || false in hasText
    ensures ranges != [] ==>
              && |ranges| == |groups| == |hasText| && GroupsForward(groups, |words|)
              && (forall i | 0 <= i < |groups| :: GreedyGroup(fit, |hasText|, |words|, maxGroup, maxSkip, groups, i))
              && ranges == CoerceFrom(GroupRanges(words, groups), 0.0, TrackLength(duration))
  {
    ranges, groups := [], [];
    if hasText == [] || |words| < |hasText| {
      return;
    }
    var raw := [];
    var cursor := 0;
    for i := 0 to |hasText|
      invariant |groups| == i && cursor == CursorBefore(groups, i)
      invariant cursor + (|hasText| - i) <= |words|
      invariant GroupsForward(groups, |words|) && raw == GroupRanges(words, groups)
      invariant forall j | 0 <= j < i :: GreedyGroup(fit, |hasText|, |words|, maxGroup, maxSkip, groups, j)
      invariant forall j | 0 <= j < i :: hasText[j]
    {
      if !hasText[i] {
        return;
      }
      var start, end := ChooseGroup(fit, i, |words|, |hasText| - i - 1, cursor, maxGroup, maxSkip);
      raw := raw + [GroupRange(words, start, end)];
      ghost var before := groups;
      groups := groups + [(start, end)];
      forall j | 0 <= j < i + 1
        ensures GreedyGroup(fit, |hasText|, |words|, maxGroup, maxSkip, groups, j)
      {
        if j < i {
          assert GreedyGroup(fit, |hasText|, |words|, maxGroup, maxSkip, before, j);
          assert CursorBefore(groups, j) == CursorBefore(before, j);
        }
      }
      cursor := end;
    }
    ranges := CoerceMonotonic(raw, duration);
    CoerceTrack(raw, 0.0, TrackLength(duration));
  }
}
