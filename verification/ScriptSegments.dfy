/** Splitting a narration script into segments: the refinement loop, the weighted
    partition, the greedy single-video split, and the normalization that always fills a
    storyboard. */
module ScriptSegments {
  import opened Basics
  import opened Integers
  import opened Text
  import opened ContiguousPartition
  import opened ScriptText
  import Balanced = BalancedSplitter
  import Weighted = WeightedPartition

  ghost predicate AllSolid(atoms: seq<string>) {
    forall a | a in atoms :: Solid(a)
  }

  ghost predicate AllStripped(parts: seq<string>) {
    forall p | p in parts :: p != "" && Stripped(p)
  }

  lemma StrippedAllSolid(parts: seq<string>)
    requires AllStripped(parts)
    ensures AllSolid(parts)
  {
    forall p | p in parts
      ensures Solid(p)
    {
      assert !IsSpace(p[0]);
    }
  }

  /** The two halves of a stripped text both show something. */
  lemma HalvesSolid(s: string, pieces: seq<string>)
    requires Stripped(s) && |pieces| == 2 && Flatten(pieces) == s && pieces[0] != "" && pieces[1] != ""
    ensures AllSolid(pieces)
  {
    assert pieces[1..] == [pieces[1]] && Flatten([pieces[1]]) == pieces[1] + Flatten([]);
    assert s == pieces[0] + pieces[1];
    assert s[0] == pieces[0][0] && s[|s| - 1] == pieces[1][|pieces[1]| - 1];
  }

  ghost predicate Heaviest(atoms: seq<string>, i: nat) {
    && i < |atoms|
    && (forall j | 0 <= j < |atoms| :: SpeechWeight(atoms[j]) <= SpeechWeight(atoms[i]))
    && forall j | 0 <= j < i :: SpeechWeight(atoms[j]) < SpeechWeight(atoms[i])
  }

  /** The heaviest atom has no comma to split at, and may not or cannot be halved. */
  ghost predicate Stuck(atoms: seq<string>, total: int) {
    exists i: nat :: Heaviest(atoms, i) && |Atoms(atoms[i], IsComma, false)| <= 1 && (|atoms| >= total || |atoms[i]| <= 2)
  }

  /** The heaviest atom is split at its commas, or else into two balanced pieces while there
      are too few atoms. */
  ghost predicate SplitsAt(atoms: seq<string>, atoms': seq<string>, total: int, i: nat, pieces: seq<string>) {
    && Heaviest(atoms, i) && atoms' == Replace(atoms, i, pieces) && |pieces| > 1
    && var soft := Atoms(atoms[i], IsComma, false);
       if |soft| > 1 then pieces == soft else |atoms| < total && Balanced.IsSplit(pieces, atoms[i], 2)
  }

  /** Atoms that need it are split one after the other. */
  ghost predicate SplitsOnce(atoms: seq<string>, atoms': seq<string>, total: int) {
    && atoms != [] && |atoms| <= total && NeedsSplit(atoms, total)
    && exists i, pieces :: SplitsAt(atoms, atoms', total, i, pieces)
  }

  ghost predicate RefinesTo(history: seq<seq<string>>, first: seq<string>, total: int, atoms: seq<string>) {
    && history != [] && history[0] == first && history[|history| - 1] == atoms
    && forall k | 0 <= k < |history| - 1 :: SplitsOnce(history[k], history[k + 1], total)
  }

  lemma RefinesOnce(history: seq<seq<string>>, first: seq<string>, total: int, atoms: seq<string>, atoms': seq<string>,
                    i: nat, pieces: seq<string>)
    requires RefinesTo(history, first, total, atoms) && atoms != [] && |atoms| <= total && NeedsSplit(atoms, total)
    requires SplitsAt(atoms, atoms', total, i, pieces)
    ensures RefinesTo(history + [atoms'], first, total, atoms')
  {
    var more := history + [atoms'];
    forall k | 0 <= k < |more| - 1
      ensures SplitsOnce(more[k], more[k + 1], total)
    {
      assert k < |history| - 1 ==> SplitsOnce(history[k], history[k + 1], total);
    }
  }

  /** The refinement loop: while there are too few or too uneven atoms, split the heaviest
      at its commas, or, when it is the only one, in the middle. Each round adds atoms, so
      the loop ends. */
  method RefineAtoms(first: seq<string>, total: int) returns (atoms: seq<string>)
    requires first != [] && AllSolid(first) && (|first| == 1 ==> Stripped(first[0]))
    ensures atoms != [] && AllSolid(atoms)
    ensures Visible(Flatten(atoms)) == Visible(Flatten(first))
    ensures |atoms| > total || !NeedsSplit(atoms, total) || Stuck(atoms, total)
    ensures exists history :: RefinesTo(history, first, total, atoms)
  {
    atoms := first;
    ghost var history := [first];
    while |atoms| <= total && NeedsSplit(atoms, total)
      invariant atoms != [] && AllSolid(atoms) && (|atoms| == 1 ==> Stripped(atoms[0]))
      invariant Visible(Flatten(atoms)) == Visible(Flatten(first))
      invariant RefinesTo(history, first, total, atoms)
      decreases total - |atoms|
    {
      var i := FirstMax(Weights(atoms));
      assert forall j | 0 <= j < |atoms| :: SpeechWeight(atoms[j]) == Weights(atoms)[j];
      var soft := Atoms(atoms[i], IsComma, false);
      AtomsVisible(atoms[i], IsComma, false);
      if |soft| <= 1 {
        if |atoms| < total && |atoms[i]| > 1 {
          var pieces := Balanced.Split(atoms[i], 2);
          if |pieces| > 1 {
            HalvesSolid(atoms[i], pieces);
            ReplaceKeeps(atoms, i, pieces);
            RefinesOnce(history, first, total, atoms, Replace(atoms, i, pieces), i, pieces);
            atoms := Replace(atoms, i, pieces);
            history := history + [atoms];
            continue;
          }
        }
        assert Stuck(atoms, total);
        break;
      }
      StrippedAllSolid(soft);
      ReplaceKeeps(atoms, i, soft);
      RefinesOnce(history, first, total, atoms, Replace(atoms, i, soft), i, soft);
      atoms := Replace(atoms, i, soft);
      history := history + [atoms];
    }
  }

  /** The text of one group of atoms. */
  function Group(atoms: seq<string>, start: nat, end: nat): string
    requires start <= end <= |atoms|
  {
    Strip(Flatten(atoms[start..end]))
  }

  ghost predicate IsGroup(chunks: seq<string>, atoms: seq<string>, b: seq<nat>, i: nat) {
    && i < |chunks| && i + 1 < |b| && b[i] < b[i + 1] <= |atoms|
    && chunks[i] == Group(atoms, b[i], b[i + 1])
  }

  lemma GroupKeeps(atoms: seq<string>, start: nat, end: nat)
    requires start < end <= |atoms| && AllSolid(atoms)
    ensures Visible(Flatten(atoms[..end])) == Visible(Flatten(atoms[..start])) + Visible(Group(atoms, start, end))
    ensures Group(atoms, start, end) != "" && Stripped(Group(atoms, start, end))
  {
    var group := atoms[start..end];
    assert atoms[..start] + group == atoms[..end];
    FlattenConcat(atoms[..start], group);
    VisibleConcat(Flatten(atoms[..start]), Flatten(group));
    FlattenSolid(group);
    StripKeeps(Flatten(group));
  }

  /** The chunks of the first n groups. */
  ghost predicate GroupsJoined(chunks: seq<string>, atoms: seq<string>, b: seq<nat>, n: nat) {
    && n < |b| && b[n] <= |atoms| && |chunks| == n && AllStripped(chunks)
    && Visible(Flatten(chunks)) == Visible(Flatten(atoms[..b[n]]))
    && forall j | 0 <= j < n :: IsGroup(chunks, atoms, b, j)
  }

  lemma OneMoreGroup(chunks: seq<string>, atoms: seq<string>, b: seq<nat>, n: nat)
    requires GroupsJoined(chunks, atoms, b, n) && AllSolid(atoms)
    requires n + 1 < |b| && b[n] < b[n + 1] <= |atoms|
    ensures Group(atoms, b[n], b[n + 1]) != ""
    ensures GroupsJoined(chunks + [Group(atoms, b[n], b[n + 1])], atoms, b, n + 1)
  {
    var chunk := Group(atoms, b[n], b[n + 1]);
    GroupKeeps(atoms, b[n], b[n + 1]);
    FlattenConcat(chunks, [chunk]);
    FlattenOne(chunk);
    VisibleConcat(Flatten(chunks), chunk);
    forall j | 0 <= j < n + 1
      ensures IsGroup(chunks + [chunk], atoms, b, j)
    {
      assert j < n ==> IsGroup(chunks, atoms, b, j);
    }
  }

  /** The chunks of the groups. No group comes out empty, so none is dropped. */
  method JoinGroups(atoms: seq<string>, pairs: seq<(nat, nat)>, ghost b: seq<nat>, ghost cap: int)
    returns (chunks: seq<string>)
    requires IsCover(b, |pairs|, |atoms|, cap) && PairsOf(pairs, b) && AllSolid(atoms)
    ensures |chunks| == |pairs| && AllStripped(chunks)
    ensures forall i | 0 <= i < |pairs| :: IsGroup(chunks, atoms, b, i)
    ensures Visible(Flatten(chunks)) == Visible(Flatten(atoms))
  {
    chunks := [];
    for i := 0 to |pairs|
      invariant GroupsJoined(chunks, atoms, b, i)
    {
      BoundaryRange(b, |pairs|, |atoms|, cap, i + 1);
      assert b[i] < b[i + 1];
      OneMoreGroup(chunks, atoms, b, i);
      var chunk := Group(atoms, pairs[i].0, pairs[i].1);
      if chunk != "" {
        chunks := chunks + [chunk];
      }
    }
    assert atoms[..|atoms|] == atoms;
  }

  /** The groups of a best partition of the atoms, as text. */
  method PartitionAtoms(atoms: seq<string>, total: nat) returns (chunks: seq<string>, ghost b: seq<nat>)
    requires 1 <= total <= |atoms| && AllSolid(atoms)
    ensures IsOptimalCover(b, total, |atoms|, |atoms|, Weighted.Deviation(Weights(atoms), total))
    ensures |chunks| == total && AllStripped(chunks)
    ensures forall i | 0 <= i < total :: IsGroup(chunks, atoms, b, i)
    ensures Visible(Flatten(chunks)) == Visible(Flatten(atoms))
  {
    var pairs;
    pairs, b := Weighted.Partition(Weights(atoms), total);
    chunks := JoinGroups(atoms, pairs, b, |atoms|);
  }

  function AtLeastOne(count: int): nat {
    if count >= 1 then count else 1
  }

  function NonBlankLines(raw: string): seq<string> {
    StripAll(SplitLines(raw))
  }

  function Normalized(text: string): string {
    Strip(NormalizeNewlines(text))
  }

  lemma NormalizedKeeps(text: string)
    ensures Visible(Normalized(text)) == Visible(text)
    ensures Visible(Flatten(NonBlankLines(Normalized(text)))) == Visible(text)
    ensures Visible(Strip(Collapse(Normalized(text)))) == Visible(text)
  {
    NewlinesKeep(text);
    StripKeeps(NormalizeNewlines(text));
    LinesKeep(Normalized(text));
    StripAllKeeps(SplitLines(Normalized(text)));
    CollapseKeeps(Normalized(text));
    StripKeeps(Collapse(Normalized(text)));
  }

  lemma {:induction false} FlattenEmpty(parts: seq<string>)
    requires forall p | p in parts :: p == ""
    ensures Flatten(parts) == ""
  {
    if parts != [] {
      assert parts[0] in parts && forall p | p in parts[1..] :: p in parts;
      FlattenEmpty(parts[1..]);
    }
  }

  lemma FlattenOne(s: string)
    ensures Flatten([s]) == s
  {
    assert Flatten([s]) == s + Flatten([]);
  }

  /** The sentences; but the parts between commas when there is one long sentence that has
      some, and the whole when there is none. */
  ghost predicate AreFirstAtoms(atoms: seq<string>, source: string) {
    var sentences, parts := Atoms(source, IsSentenceEnd, false), Atoms(source, IsComma, false);
    if |sentences| == 1 && SpeechWeight(sentences[0]) > 28.0 && |parts| > 1 then atoms == parts
    else if sentences == [] then atoms == [source]
    else atoms == sentences
  }

  method InitialAtoms(source: string) returns (atoms: seq<string>)
    requires source != "" && Stripped(source)
    ensures AreFirstAtoms(atoms, source)
    ensures atoms != [] && AllSolid(atoms) && (|atoms| == 1 ==> Stripped(atoms[0]))
    ensures Visible(Flatten(atoms)) == Visible(source)
  {
    atoms := Atoms(source, IsSentenceEnd, false);
    AtomsVisible(source, IsSentenceEnd, false);
    if |atoms| == 1 && SpeechWeight(atoms[0]) > 28.0 {
      var soft := Atoms(source, IsComma, false);
      AtomsVisible(source, IsComma, false);
      if |soft| > 1 {
        atoms := soft;
      }
    }
    if atoms == [] {
      atoms := [source];
      FlattenOne(source);
    }
    StrippedAllSolid(atoms);
  }

  predicate Uneven(chunks: seq<string>)
    requires chunks != []
  {
    Lopsided(Lengths(chunks), 0.0)
  }

  function SentenceEnds(s: string): nat {
    |Keep(s, IsSentenceEnd)|
  }

  /** The script as one line. */
  function OneLine(text: string): string {
    Strip(Collapse(Normalized(text)))
  }

  /** How the segments came about. */
  datatype Route =
    | ByLine                                              // as many lines as wanted segments
    | AllBlank                                            // no text
    | AsOne                                               // one segment wanted
    | AsAtoms(atoms: seq<string>)                         // too few atoms to choose from
    | ByWeight(atoms: seq<string>, b: seq<nat>)           // a best partition of the atoms
    | ByLength(atoms: seq<string>, b: seq<nat>, groups: seq<string>)  // it was too uneven

  ghost predicate Refined(atoms: seq<string>, text: string, total: nat) {
    && atoms != [] && AllSolid(atoms) && Visible(Flatten(atoms)) == Visible(text)
    && (|atoms| > total || !NeedsSplit(atoms, total) || Stuck(atoms, total))
    && exists first, history :: AreFirstAtoms(first, OneLine(text)) && RefinesTo(history, first, total, atoms)
  }

  ghost predicate BestGroups(groups: seq<string>, atoms: seq<string>, b: seq<nat>, total: nat)
    requires total > 0
  {
    && |groups| == total
    && IsOptimalCover(b, total, |atoms|, |atoms|, Weighted.Deviation(Weights(atoms), total))
    && forall i | 0 <= i < total :: IsGroup(groups, atoms, b, i)
  }

  ghost predicate Taken(route: Route, text: string, total: nat, segments: seq<string>)
    requires total > 0
  {
    var lines, source := NonBlankLines(Normalized(text)), OneLine(text);
    (route.ByLine? <==> total > 1 && |lines| == total)
    && match route
       case ByLine => segments == lines
       case AllBlank => source == "" && segments == seq(total, _ => "")
       case AsOne => source != "" && total == 1 && segments == [source]
       case AsAtoms(atoms) => total > 1 && Refined(atoms, text, total) && |atoms| <= total && segments == atoms
       case ByWeight(atoms, b) =>
         && total > 1 && Refined(atoms, text, total) && |atoms| > total && BestGroups(segments, atoms, b, total)
         && (Uneven(segments) ==> SentenceEnds(source) > total)
       case ByLength(atoms, b, groups) =>
         && total > 1 && Refined(atoms, text, total) && |atoms| > total && BestGroups(groups, atoms, b, total)
         && Uneven(groups) && SentenceEnds(source) <= total
         && Balanced.IsSplit(segments, source, total)
  }

  /** Splits a script into at most the wanted number of segments. Whatever route is taken,
      every visible character is kept once and in order. */
  method SplitWeighted(text: string, count: int) returns (segments: seq<string>, ghost route: Route)
    ensures 1 <= |segments| <= AtLeastOne(count)
    ensures Visible(Flatten(segments)) == Visible(text)
    ensures Taken(route, text, AtLeastOne(count), segments)
  {
    NormalizedKeeps(text);
    var raw := Normalized(text);
    var total := AtLeastOne(count);
    var lines := NonBlankLines(raw);
    if total > 1 && |lines| == total {
      return lines, ByLine;
    }
    var source := Strip(Collapse(raw));
    if source == "" {
      segments, route := seq(total, _ => ""), AllBlank;
      FlattenEmpty(segments);
      return;
    }
    FlattenOne(source);
    if total <= 1 {
      return [source], AsOne;
    }
    StripKeeps(Collapse(raw));
    var atoms := InitialAtoms(source);
    atoms := RefineAtoms(atoms, total);
    if |atoms| <= total {
      return atoms, AsAtoms(atoms);
    }
    ghost var b;
    segments, b := PartitionAtoms(atoms, total);
    route := ByWeight(atoms, b);
    if Uneven(segments) && SentenceEnds(source) <= total {
      route := ByLength(atoms, b, segments);
      segments := Balanced.Split(source, total);
    }
  }

  // ---- filling the storyboard

  lemma {:induction false} InkOfParts(parts: seq<string>)
    ensures forall p | p in parts :: Ink(p) <= Ink(Flatten(parts))
    ensures (forall p | p in parts :: Ink(p) <= 1) ==> Ink(Flatten(parts)) <= |parts|
    ensures (forall p | p in parts :: Ink(p) <= 1) && "" in parts ==> Ink(Flatten(parts)) < |parts|
    ensures (forall p | p in parts :: Ink(p) >= 1) ==> Ink(Flatten(parts)) >= |parts|
  {
    if parts != [] {
      InkOfParts(parts[1..]);
      InkConcat(parts[0], Flatten(parts[1..]));
      assert parts[0] in parts && forall p | p in parts[1..] :: p in parts;
      assert forall p | p in parts :: p == parts[0] || p in parts[1..];
    }
  }

  lemma ReplaceInk(atoms: seq<string>, i: nat, pieces: seq<string>)
    requires i < |atoms| && Ink(Flatten(pieces)) == Ink(atoms[i])
    ensures Ink(Flatten(Replace(atoms, i, pieces))) == Ink(Flatten(atoms))
  {
    var l, r := atoms[..i], atoms[i + 1..];
    assert atoms == l + ([atoms[i]] + r);
    FlattenConcat(l, [atoms[i]] + r);
    assert ([atoms[i]] + r)[1..] == r;
    FlattenConcat(l + pieces, r);
    FlattenConcat(l, pieces);
    InkConcat(Flatten(l), atoms[i] + Flatten(r));
    InkConcat(atoms[i], Flatten(r));
    InkConcat(Flatten(l) + Flatten(pieces), Flatten(r));
    InkConcat(Flatten(l), Flatten(pieces));
  }

  predicate IsMark(c: char) {
    IsComma(c) || c == '；' || c == ';' || c == '：' || c == ':'
  }

  ghost predicate AfterMark(s: string, cut: nat) {
    0 < cut <= |s| && IsMark(s[cut - 1])
  }

  /** The first of the marks closest to the middle. */
  ghost predicate ClosestMark(s: string, c: nat) {
    && AfterMark(s, c)
    && forall d: nat | AfterMark(s, d) ::
         Distance(c, |s| / 2) < Distance(d, |s| / 2) || (Distance(c, |s| / 2) == Distance(d, |s| / 2) && c <= d)
  }

  /** Where a segment is halved: after the mark closest to its middle, or in the middle,
      but never at its ends. */
  ghost predicate IsHalvingCut(s: string, cut: nat) {
    && 1 <= cut <= |s| - 1
    && ((forall c: nat :: !AfterMark(s, c)) ==> cut == |s| / 2)
    && ((exists c: nat :: AfterMark(s, c)) ==> exists c: nat :: ClosestMark(s, c) && cut == Min(c, |s| - 1))
  }

  method HalvingCut(s: string) returns (cut: nat)
    requires |s| >= 2
    ensures IsHalvingCut(s, cut)
  {
    var middle := |s| / 2;
    var found, best := false, 0;
    for pos := 0 to |s|
      invariant found ==> 0 < best <= pos && AfterMark(s, best)
      invariant forall d: nat | d <= pos && AfterMark(s, d) ::
                  found && (Distance(best, middle) < Distance(d, middle) || (Distance(best, middle) == Distance(d, middle) && best <= d))
    {
      assert AfterMark(s, pos + 1) == IsMark(s[pos]);
      if IsMark(s[pos]) && (!found || Distance(pos + 1, middle) < Distance(best, middle)) {
        found, best := true, pos + 1;
      }
    }
    assert found ==> ClosestMark(s, best);
    cut := Min(Max(if found then best else middle, 1), |s| - 1);
  }

  lemma HalfKeeps(s: string, cut: nat)
    requires Stripped(s) && 1 <= cut <= |s| - 1
    ensures Strip(s[..cut]) != "" && Strip(s[cut..]) != ""
    ensures Visible(Flatten([Strip(s[..cut]), Strip(s[cut..])])) == Visible(s)
    ensures Ink(Flatten([Strip(s[..cut]), Strip(s[cut..])])) == Ink(s)
  {
    var l, r := Strip(s[..cut]), Strip(s[cut..]);
    StripKeeps(s[..cut]);
    StripKeeps(s[cut..]);
    assert Solid(s[..cut]) && Solid(s[cut..]) by {
      assert !IsSpace(s[..cut][0]) && !IsSpace(s[cut..][|s| - cut - 1]);
    }
    assert Flatten([l, r]) == l + r by {
      assert [l, r][1..] == [r];
      FlattenOne(r);
    }
    assert s == s[..cut] + s[cut..];
    VisibleConcat(s[..cut], s[cut..]);
    InkConcat(s[..cut], s[cut..]);
    VisibleConcat(l, r);
    InkConcat(l, r);
  }

  /** What every round of the filling loop keeps. */
  ghost predicate Filling(chunks: seq<string>, segments: seq<string>, target: nat) {
    && chunks != [] && (forall c | c in chunks :: Stripped(c))
    && Visible(Flatten(chunks)) == Visible(Flatten(segments))
    && Ink(Flatten(chunks)) == Ink(Flatten(segments))
    && ("" in chunks ==> Ink(Flatten(segments)) < target)
  }

  /** A longest segment of one character means that there are too few characters. */
  lemma FillByPad(chunks: seq<string>, segments: seq<string>, target: nat, i: nat)
    requires Filling(chunks, segments, target) && |chunks| < target
    requires i < |chunks| && |chunks[i]| <= 1
    requires forall j | 0 <= j < |chunks| :: Lengths(chunks)[j] <= Lengths(chunks)[i]
    ensures Filling(chunks + [""], segments, target)
  {
    forall c | c in chunks
      ensures Ink(c) <= 1
    {
      var j :| 0 <= j < |chunks| && chunks[j] == c;
      assert Lengths(chunks)[j] <= Lengths(chunks)[i];
      InkAtMostLength(c);
    }
    InkOfParts(chunks);
    FlattenConcat(chunks, [""]);
    FlattenOne("");
    assert Flatten(chunks + [""]) == Flatten(chunks);
  }

  lemma FillByHalf(chunks: seq<string>, segments: seq<string>, target: nat, i: nat, cut: nat)
    requires Filling(chunks, segments, target)
    requires i < |chunks| && 1 <= cut <= |chunks[i]| - 1
    ensures Strip(chunks[i][..cut]) != "" && Strip(chunks[i][cut..]) != ""
    ensures Filling(Replace(chunks, i, [Strip(chunks[i][..cut]), Strip(chunks[i][cut..])]), segments, target)
  {
    var l, r := Strip(chunks[i][..cut]), Strip(chunks[i][cut..]);
    HalfKeeps(chunks[i], cut);
    StripKeeps(chunks[i][..cut]);
    StripKeeps(chunks[i][cut..]);
    ReplaceKeeps(chunks, i, [l, r]);
    ReplaceInk(chunks, i, [l, r]);
  }

  lemma StoryboardFull(chunks: seq<string>, segments: seq<string>, target: nat)
    requires |chunks| >= target >= 1 && Filling(chunks, segments, target)
    requires |chunks| == target || chunks == StripAll(segments)
    ensures (forall c | c in chunks[..target] :: c != "") <==> Ink(Flatten(segments)) >= target
  {
    if "" !in chunks {
      forall c | c in chunks
        ensures Ink(c) >= 1
      {
        InkAtMostLength(c);
      }
      InkOfParts(chunks);
      assert forall c | c in chunks[..target] :: c in chunks;
    } else {
      assert chunks[..target] == chunks;
    }
  }

  lemma LongestIsFirst(chunks: seq<string>, i: nat)
    requires i < |chunks| && forall j | 0 <= j < |chunks| :: Lengths(chunks)[j] <= Lengths(chunks)[i]
    requires forall j | 0 <= j < i :: Lengths(chunks)[j] < Lengths(chunks)[i]
    ensures FirstLongest(chunks, i)
  {
    forall j | 0 <= j < |chunks|
      ensures |chunks[j]| < |chunks[i]| || (|chunks[j]| == |chunks[i]| && i <= j)
    {
      assert Lengths(chunks)[j] <= Lengths(chunks)[i] && (j < i ==> Lengths(chunks)[j] < Lengths(chunks)[i]);
    }
  }

  /** The first of the longest segments. */
  ghost predicate FirstLongest(chunks: seq<string>, i: nat) {
    i < |chunks| && forall j | 0 <= j < |chunks| :: |chunks[j]| < |chunks[i]| || (|chunks[j]| == |chunks[i]| && i <= j)
  }

  /** One more segment: the first of the longest ones is halved, or an empty one is added
      when that has a single character. */
  ghost predicate OneMoreSegment(chunks: seq<string>, chunks': seq<string>, i: nat, cut: nat) {
    && FirstLongest(chunks, i)
    && if |chunks[i]| <= 1 then chunks' == chunks + [""]
       else
         && IsHalvingCut(chunks[i], cut)
         && chunks' == Replace(chunks, i, [Strip(chunks[i][..cut]), Strip(chunks[i][cut..])])
  }

  ghost predicate Grows(chunks: seq<string>, chunks': seq<string>) {
    exists i: nat, cut: nat :: OneMoreSegment(chunks, chunks', i, cut)
  }

  /** From the segments with text, one more at a time while the target is not reached. */
  ghost predicate GrowsTo(history: seq<seq<string>>, segments: seq<string>, target: nat, chunks: seq<string>) {
    && history != [] && history[0] == StripAll(segments) && history[|history| - 1] == chunks
    && forall k | 0 <= k < |history| - 1 :: |history[k]| < target && Grows(history[k], history[k + 1])
  }

  lemma GrowsOnce(history: seq<seq<string>>, segments: seq<string>, target: nat, chunks: seq<string>, chunks': seq<string>,
                  i: nat, cut: nat)
    requires GrowsTo(history, segments, target, chunks) && |chunks| < target && OneMoreSegment(chunks, chunks', i, cut)
    ensures GrowsTo(history + [chunks'], segments, target, chunks')
  {
    var more := history + [chunks'];
    forall k | 0 <= k < |more| - 1
      ensures |more[k]| < target && Grows(more[k], more[k + 1])
    {
      assert k < |history| - 1 ==> more[k] == history[k] && more[k + 1] == history[k + 1] && Grows(history[k], history[k + 1]);
    }
  }

  /** The entries that segments are made into. */
  ghost predicate Fills(chunks: seq<string>, segments: seq<string>, target: nat) {
    if StripAll(segments) == [] then chunks == seq(target, _ => "")
    else exists history, all :: GrowsTo(history, segments, target, all) && |all| >= target && chunks == all[..target]
  }

  /** Halves the longest segment until there are enough, and keeps the first ones when
      there are too many. Every entry has text exactly when the segments have at least as
      many characters as entries, and nothing visible is lost unless there were too many
      segments to begin with. */
  method FillStoryboard(segments: seq<string>, targetCount: int) returns (chunks: seq<string>)
    ensures |chunks| == AtLeastOne(targetCount) && Fills(chunks, segments, AtLeastOne(targetCount))
    ensures |StripAll(segments)| <= |chunks| ==> Visible(Flatten(chunks)) == Visible(Flatten(segments))
    ensures (forall c | c in chunks :: c != "") <==> Ink(Flatten(segments)) >= AtLeastOne(targetCount)
  {
    var target := AtLeastOne(targetCount);
    chunks := StripAll(segments);
    if chunks == [] {
      StripAllKeeps(segments);
      assert Ink(Flatten([])) == 0;
      chunks := seq(target, _ => "");
      FlattenEmpty(chunks);
      assert chunks[0] == "" && chunks[0] in chunks;
      return;
    }
    StripAllKeeps(segments);
    ghost var history := [chunks];
    while |chunks| < target
      invariant Filling(chunks, segments, target)
      invariant |chunks| <= target || chunks == StripAll(segments)
      invariant GrowsTo(history, segments, target, chunks)
      decreases target - |chunks|
    {
      var i := FirstMax(Lengths(chunks));
      var source := chunks[i];
      LongestIsFirst(chunks, i);
      if |source| <= 1 {
        FillByPad(chunks, segments, target, i);
        GrowsOnce(history, segments, target, chunks, chunks + [""], i, 0);
        chunks := chunks + [""];
        history := history + [chunks];
        continue;
      }
      var cut := HalvingCut(source);
      var left, right := Strip(source[..cut]), Strip(source[cut..]);
      // Both halves of a stripped segment have text, so the padding branch after this is idle.
      FillByHalf(chunks, segments, target, i, cut);
      GrowsOnce(history, segments, target, chunks, Replace(chunks, i, [left, right]), i, cut);
      chunks := Replace(chunks, i, [left, right]);
      history := history + [chunks];
    }
    StoryboardFull(chunks, segments, target);
    assert |chunks| == target ==> chunks[..target] == chunks;
    chunks := chunks[..target];
  }

  // ---- the single-video split

  /** The speech weight of atoms start..end. */
  ghost function RangeWeight(atoms: seq<string>, start: nat, end: nat): real
    requires start <= end <= |atoms|
  {
    if start == end then 0.0 else RangeWeight(atoms, start, end - 1) + SpeechWeight(atoms[end - 1])
  }

  /** Segment number n may end before atom end: it is heavy enough, or the atoms after it
      are needed one by one. */
  ghost predicate MayClose(atoms: seq<string>, total: nat, target: real, n: nat, start: nat, end: nat)
    requires start <= end <= |atoms|
  {
    |atoms| - end == total - n - 1 || RangeWeight(atoms, start, end) >= target
  }

  /** Segment number n ends as soon as it may. */
  ghost predicate ClosesFirst(atoms: seq<string>, total: nat, target: real, b: seq<nat>, n: nat)
    requires n + 1 < |b|
  {
    && b[n] < b[n + 1] <= |atoms|
    && MayClose(atoms, total, target, n, b[n], b[n + 1])
    && StillOpen(atoms, total, target, n, b[n], b[n + 1] - 1)
  }

  /** Segment number n may not end at atom end or earlier. */
  ghost predicate StillOpen(atoms: seq<string>, total: nat, target: real, n: nat, start: nat, end: nat)
    requires start <= end <= |atoms|
  {
    forall e | start < e <= end :: !MayClose(atoms, total, target, n, start, e)
  }

  ghost predicate Closed(segments: seq<string>, atoms: seq<string>, total: nat, target: real, b: seq<nat>, n: nat) {
    && |b| == n + 1 && b[0] == 0 && GroupsJoined(segments, atoms, b, n)
    && forall i | 0 <= i < n :: ClosesFirst(atoms, total, target, b, i)
  }

  lemma CloseOne(segments: seq<string>, atoms: seq<string>, total: nat, target: real, b: seq<nat>, n: nat, end: nat)
    requires AllSolid(atoms) && Closed(segments, atoms, total, target, b, n) && b[n] < end <= |atoms|
    requires MayClose(atoms, total, target, n, b[n], end)
    requires StillOpen(atoms, total, target, n, b[n], end - 1)
    ensures Group(atoms, b[n], end) != ""
    ensures Closed(segments + [Group(atoms, b[n], end)], atoms, total, target, b + [end], n + 1)
  {
    var b' := b + [end];
    JoinedLonger(segments, atoms, b, n, end);
    OneMoreGroup(segments, atoms, b', n);
    forall i | 0 <= i < n + 1
      ensures ClosesFirst(atoms, total, target, b', i)
    {
      assert i < n ==> ClosesFirst(atoms, total, target, b, i);
    }
  }

  lemma CloseLast(segments: seq<string>, atoms: seq<string>, total: nat, target: real, b: seq<nat>)
    requires AllSolid(atoms) && total > 0 && Closed(segments, atoms, total, target, b, total - 1)
    requires b[total - 1] < |atoms|
    ensures var b' := b + [|atoms|];
            && Group(atoms, b[total - 1], |atoms|) != ""
            && GroupsJoined(segments + [Group(atoms, b[total - 1], |atoms|)], atoms, b', total)
            && forall n | 0 <= n < total - 1 :: ClosesFirst(atoms, total, target, b', n)
  {
    var b' := b + [|atoms|];
    JoinedLonger(segments, atoms, b, total - 1, |atoms|);
    OneMoreGroup(segments, atoms, b', total - 1);
    forall n | 0 <= n < total - 1
      ensures ClosesFirst(atoms, total, target, b', n)
    {
      assert ClosesFirst(atoms, total, target, b, n);
    }
  }

  lemma JoinedLonger(chunks: seq<string>, atoms: seq<string>, b: seq<nat>, n: nat, end: nat)
    requires GroupsJoined(chunks, atoms, b, n)
    ensures GroupsJoined(chunks, atoms, b + [end], n)
  {
    forall j | 0 <= j < n
      ensures IsGroup(chunks, atoms, b + [end], j)
    {
      assert IsGroup(chunks, atoms, b, j);
    }
  }

  /** The greedy loop. More atoms than wanted segments give exactly that many, all with
      text, whatever the weights are, and every segment but the last ends as soon as it
      may. */
  method GreedySegments(atoms: seq<string>, total: nat, target: real) returns (segments: seq<string>, ghost b: seq<nat>)
    requires 2 <= total < |atoms| && AllSolid(atoms)
    ensures |segments| == total && |b| == total + 1 && b[0] == 0 && b[total] == |atoms|
    ensures GroupsJoined(segments, atoms, b, total)
    ensures forall n | 0 <= n < total - 1 :: ClosesFirst(atoms, total, target, b, n)
  {
    segments, b := [], [0];
    assert atoms[..0] == [];
    var current: seq<string> := [];
    var weight := 0.0;
    for i := 0 to |atoms|
      invariant |segments| < total && Closed(segments, atoms, total, target, b, |segments|)
      invariant b[|segments|] <= i && current == atoms[b[|segments|]..i]
      invariant weight == RangeWeight(atoms, b[|segments|], i)
      invariant |atoms| - i >= total - |segments| || (|segments| == total - 1 && current != [])
      invariant |segments| < total - 1 ==> StillOpen(atoms, total, target, |segments|, b[|segments|], i)
    {
      current := current + [atoms[i]];
      assert current == atoms[b[|segments|]..i + 1];
      weight := weight + SpeechWeight(atoms[i]);
      var remainingAtoms := |atoms| - i - 1;
      var remainingSegments := total - |segments| - 1;
      if remainingSegments <= 0 {
        continue;
      }
      if remainingAtoms == remainingSegments || weight >= target {
        CloseOne(segments, atoms, total, target, b, |segments|, i + 1);
        var segment := Strip(Flatten(current));
        if segment != "" {
          segments, b := segments + [segment], b + [i + 1];
        }
        current, weight := [], 0.0;
      }
    }
    CloseLast(segments, atoms, total, target, b);
    var tail := Strip(Flatten(current));
    if tail != "" {
      segments, b := segments + [tail], b + [|atoms|];
    }
  }

  /** The sentences of a script without its line breaks. */
  function Sentences(text: string): seq<string> {
    Atoms(OneLine(text), IsSentenceEnd, true)
  }

  /** An equal part of the weight, or of the length when nothing has weight. */
  function TargetWeight(sentences: seq<string>, length: nat, total: nat): (target: real)
    requires total > 0
    ensures target * total as real == if Weighted.Sum(Weights(sentences)) > 0.0 then Weighted.Sum(Weights(sentences)) else length as real
  {
    var weight := Weighted.Sum(Weights(sentences));
    if weight > 0.0 then weight / total as real else length as real / total as real
  }

  ghost predicate GreedySplit(segments: seq<string>, sentences: seq<string>, length: nat, total: nat, b: seq<nat>)
    requires total > 0
  {
    && |segments| == total && |b| == total + 1 && b[0] == 0 && b[total] == |sentences|
    && GroupsJoined(segments, sentences, b, total)
    && forall n | 0 <= n < total - 1 :: ClosesFirst(sentences, total, TargetWeight(sentences, length, total), b, n)
  }

  /** The lines, the whole, the sentences, or greedily joined ones. */
  ghost predicate IsSingleSplit(segments: seq<string>, text: string, count: int, b: seq<nat>) {
    var lines, sentences := NonBlankLines(Normalized(text)), Sentences(text);
    if |lines| > 1 then segments == lines
    else if count <= 1 || |sentences| <= 1 then segments == [OneLine(text)]
    else if |sentences| <= count then segments == sentences
    else GreedySplit(segments, sentences, |OneLine(text)|, count, b)
  }

  /** One segment a line when there are several lines; otherwise the sentences, joined
      greedily when there are more of them than wanted segments. */
  method SplitSingle(text: string, count: int) returns (segments: seq<string>, ghost b: seq<nat>)
    ensures segments != []
    ensures Visible(Flatten(segments)) == Visible(text)
    ensures IsSingleSplit(segments, text, count, b)
  {
    b := [];
    NormalizedKeeps(text);
    var raw := Normalized(text);
    var total := AtLeastOne(count);
    var lines := NonBlankLines(raw);
    if |lines| > 1 {
      return lines, b;
    }
    var source := Strip(Collapse(raw));
    FlattenOne(source);
    if source == "" {
      return [""], b;
    }
    if total <= 1 {
      return [source], b;
    }
    var atoms := Atoms(source, IsSentenceEnd, true);
    AtomsVisible(source, IsSentenceEnd, true);
    if |atoms| <= 1 {
      return [source], b;
    }
    if |atoms| <= total {
      return atoms, b;
    }
    StrippedAllSolid(atoms);
    segments, b := GreedySegments(atoms, total, TargetWeight(atoms, |source|, total));
    assert atoms[..|atoms|] == atoms;
  }

  // ---- normalization

  /** One second more than the script takes at 4.8 units of weight a second, but 4 to 180. */
  function EstimatedSeconds(script: string): (n: int)
    ensures Ink(script) == 0 ==> n == 15
    ensures Ink(script) > 0 ==>
              && 4 <= n <= 180
              && (n < 180 ==> SpeechWeight(script) <= (n - 1) as real * 4.8)
              && (n > 4 ==> SpeechWeight(script) > (n - 2) as real * 4.8)
  {
    if Ink(script) == 0 then 15
    else
      var seconds := -(-(SpeechWeight(script) / 4.8)).Floor + 1;
      Max(4, Min(180, seconds))
  }

  function Ceiling(n: int, d: nat): (q: int)
    requires d > 0
    ensures (q - 1) * d < n <= q * d
  {
    assert -n == (-n / d) * d + -n % d;
    assert (-(-n / d) - 1) * d == -((-n / d) * d) - d;
    -(-n / d)
  }

  /** n segments are the fewest that hold so many seconds, or all there may be. */
  ghost predicate FewestFor(n: nat, seconds: int, each: nat, limit: nat) {
    && 1 <= n <= limit
    && (n < limit ==> n * each >= seconds)
    && (n > 1 ==> (n - 1) * each < seconds)
  }

  lemma FewestIsCeiling(seconds: int, each: nat, limit: nat)
    requires seconds > 0 && each > 0 && limit > 0
    ensures FewestFor(Min(AtLeastOne(Ceiling(seconds, each)), limit), seconds, each, limit)
  {
    var needed := Ceiling(seconds, each);
    if limit < needed {
      assert (limit - 1) * each <= (needed - 1) * each by { Scale(limit - 1, needed - 1, each); }
    } else if needed < 1 {
      Scale(needed, 0, each);
    }
  }

  lemma Scale(a: int, b: int, d: nat)
    requires a <= b
    ensures a * d <= b * d
  {
    assert (b - a) * d >= 0;
  }

  /** How many segments a script gets: four for a storyboard, else the fewest that hold its
      estimated length, up to the limit. */
  function SegmentCount(script: string, storyboard: bool, maxSeconds: int, maxSegments: int): (n: nat)
    ensures storyboard ==> n == 4
    ensures !storyboard ==> FewestFor(n, EstimatedSeconds(script), Max(maxSeconds, 8), AtLeastOne(maxSegments))
  {
    if storyboard then 4
    else
      var seconds, each, limit := EstimatedSeconds(script), Max(maxSeconds, 8), AtLeastOne(maxSegments);
      FewestIsCeiling(seconds, each, limit);
      Min(AtLeastOne(Ceiling(seconds, each)), limit)
  }

  /** The supplied texts that are not empty. */
  function Supplied(items: Option<seq<string>>): (texts: seq<string>)
    ensures forall x | x in texts :: x != "" && Stripped(x)
    ensures items.None? ==> texts == []
  {
    if items.None? then [] else StripAll(items.value)
  }

  /** A supplied text with something visible counts, stripped and in its place. */
  lemma SuppliedOneMore(items: seq<string>, item: string)
    ensures Supplied(Some(items + [item])) == Supplied(Some(items)) + if Strip(item) != "" then [Strip(item)] else []
  {
    StripAllConcat(items, [item]);
    assert [item][1..] == [];
  }

  method NormalizeScripts(script: string, storyboard: bool, items: Option<seq<string>>, maxSeconds: int, maxSegments: int)
    returns (segments: seq<string>)
    ensures storyboard ==> |segments| == 4
    ensures segments != []
    ensures Supplied(items) == [] ==> Visible(Flatten(segments)) == Visible(script)
    ensures storyboard && Supplied(items) == [] && |Visible(script)| >= 4 ==> "" !in segments
    ensures Supplied(items) != [] && (storyboard ==> |Supplied(items)| <= 4) ==>
              Visible(Flatten(segments)) == Visible(Flatten(items.value))
    ensures Supplied(items) != [] ==> if storyboard then Fills(segments, Supplied(items), 4) else segments == Supplied(items)
    ensures Supplied(items) == [] && storyboard ==>
              exists route, split :: Taken(route, Strip(script), 4, split) && Fills(segments, split, 4)
    ensures Supplied(items) == [] && !storyboard ==>
              exists b :: IsSingleSplit(segments, Strip(script), SegmentCount(Strip(script), false, maxSeconds, maxSegments), b)
    ensures Supplied(items) == [] && !storyboard && |NonBlankLines(Normalized(Strip(script)))| <= 1 ==>
              |segments| <= SegmentCount(Strip(script), storyboard, maxSeconds, maxSegments)
  {
    var source := Strip(script);
    StripKeeps(script);
    var supplied := Supplied(items);
    if items.Some? {
      StripAllKeeps(items.value);
    }
    var count := SegmentCount(source, storyboard, maxSeconds, maxSegments);
    if storyboard {
      segments := supplied;
      if supplied == [] {
        ghost var route: Route;
        segments, route := SplitWeighted(source, count);
        VisibleIsInk(Flatten(segments));
        assert Taken(route, source, 4, segments);
      } else {
        StripAllStable(items.value);
      }
      segments := FillStoryboard(segments, count);
    } else if supplied != [] {
      segments := supplied;
    } else {
      ghost var b: seq<nat>;
      segments, b := SplitSingle(source, count);
    }
  }

  /** Stripping twice is stripping once. */
  lemma {:induction false} StripAllStable(parts: seq<string>)
    ensures StripAll(StripAll(parts)) == StripAll(parts)
  {
    if parts != [] {
      StripAllStable(parts[1..]);
      var s := Strip(parts[0]);
      if s != "" {
        assert StripAll(parts) == [s] + StripAll(parts[1..]);
        assert Strip(s) == s;
      } else {
        assert StripAll(parts) == [] + StripAll(parts[1..]);
        assert [] + StripAll(parts[1..]) == StripAll(parts[1..]);
      }
    }
  }
}
