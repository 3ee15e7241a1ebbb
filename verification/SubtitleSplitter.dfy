/** The recursive splitter that cuts a subtitle part into chunks that fit one line. */
module SubtitleSplitter {
  import opened Basics
  import opened Integers
  import opened Text

  predicate IsSeparator(c: char) {
    c == ' ' || c == '，' || c == ',' || c == '、'
  }

  const BOUNDARY_TOKENS: seq<string> := [
    "无论是", "还是", "以及", "并且", "这里就是", "这里都能", "都有", "都能", "都会", "都可以", "也有", "也能",
    "还能", "可以", "可直接", "为您介绍", "坐落于", "位于", "适合", "适用于", "需要", "建议", "同时", "而且",
    "所以", "因此", "这样", "这里", "这类", "与", "和"
  ]

  /** The tokens a line may also break after. */
  const TRAILING_TOKENS: seq<string> := ["这类", "这里", "这样", "为您介绍", "坐落于", "位于"]

  const CLOSING_CHARS := "的了中上下里内外前后类器品房车图款"

  predicate TokenAt(text: string, index: nat, token: string) {
    index + |token| <= |text| && text[index..index + |token|] == token
  }

  lemma TokenAtIff(text: string, index: nat, token: string)
    ensures TokenAt(text, index, token) <==> exists before, rest :: |before| == index && text == before + token + rest
  {
    if TokenAt(text, index, token) {
      assert text == text[..index] + token + text[index + |token|..];
    }
    if before, rest :| |before| == index && text == before + token + rest {
      assert text[index..index + |token|] == token;
    }
  }

  predicate IsBoundary(text: string, index: nat) {
    || (exists t | t in BOUNDARY_TOKENS :: TokenAt(text, index, t))
    || (exists t | t in TRAILING_TOKENS :: |t| <= index && TokenAt(text, index - |t|, t))
  }

  /** The boundary of lo..hi closest to target, the later one of two. */
  function ClosestBoundary(boundary: nat -> bool, lo: nat, hi: int, target: int): (r: Option<nat>)
    ensures r.None? <==> forall i | lo <= i <= hi :: !boundary(i)
    ensures r.Some? ==>
              && lo <= r.value <= hi && boundary(r.value)
              && forall i | lo <= i <= hi && boundary(i) ::
                   || Distance(r.value, target) < Distance(i, target)
                   || (Distance(r.value, target) == Distance(i, target) && i <= r.value)
    decreases hi - lo
  {
    if hi < lo then None
    else
      var before := ClosestBoundary(boundary, lo, hi - 1, target);
      if boundary(hi) && (before.None? || Distance(hi, target) <= Distance(before.value, target))
      then Some(hi)
      else before
  }

  /** The index follows a closing character and has four characters left. */
  predicate IsClosing(text: string, index: int) {
    1 <= index <= |text| - 4 && text[index - 1] in CLOSING_CHARS
  }

  /** The last such index of lo..hi. */
  function LastClosing(text: string, lo: nat, hi: int): (r: Option<nat>)
    requires 1 <= lo && hi < |text|
    ensures r.None? <==> forall i | lo <= i <= hi :: !IsClosing(text, i)
    ensures r.Some? ==> lo <= r.value <= hi && IsClosing(text, r.value) && forall i | r.value < i <= hi :: !IsClosing(text, i)
    decreases hi
  {
    if hi < lo then None
    else if text[hi - 1] in CLOSING_CHARS && |text| - hi >= 4 then
      assert IsClosing(text, hi);
      Some(hi)
    else LastClosing(text, lo, hi - 1)
  }

  /** A number of hundredths, rounded toward zero. */
  function Hundredths(x: int): (r: int)
    ensures x >= 0 ==> 100 * r <= x < 100 * r + 100
    ensures x < 0 ==> 100 * r - 100 < x <= 100 * r
  {
    if x >= 0 then x / 100 else -(-x / 100)
  }

  function MinLeft(limit: int): (lo: nat)
    ensures lo >= 5 && lo >= Hundredths(45 * limit) && (lo == 5 || lo == Hundredths(45 * limit))
  {
    Max(5, Hundredths(45 * limit))
  }

  /** A text that is much longer may be cut behind the limit, but four characters are left. */
  function MaxLeft(length: nat, limit: int): (hi: int)
    ensures hi <= length - 4 && (hi < length - 4 ==> hi >= limit && hi >= Hundredths(135 * limit))
    ensures hi == length - 4 || hi == limit || hi == Hundredths(135 * limit)
  {
    Min(Max(Hundredths(135 * limit), limit), length - 4)
  }

  ghost predicate HasBoundary(text: string, lo: nat, hi: int) {
    exists i | lo <= i <= hi :: IsBoundary(text, i)
  }

  ghost predicate HasClosing(text: string, lo: nat, hi: int) {
    exists i | lo <= i <= hi :: IsClosing(text, i)
  }

  /** The boundary of lo..hi closest to target, the later one of two. */
  ghost predicate IsBestBoundary(text: string, at: nat, lo: nat, hi: int, target: int) {
    && lo <= at <= hi && IsBoundary(text, at)
    && forall i | lo <= i <= hi && IsBoundary(text, i) ::
         Distance(at, target) < Distance(i, target) || (Distance(at, target) == Distance(i, target) && i <= at)
  }

  ghost predicate IsLastClosing(text: string, at: nat, lo: nat, hi: int) {
    lo <= at <= hi && IsClosing(text, at) && forall i | at < i <= hi :: !IsClosing(text, i)
  }

  /** Where to cut in the window lo..hi: at a boundary, the one closest to the target; else at
      the last index behind a closing character; else at the end of the window. */
  function CutIn(text: string, lo: nat, hi: nat, target: int): (at: nat)
    requires 1 <= lo <= hi <= |text| - 4
    ensures lo <= at <= hi
  {
    var boundary := ClosestBoundary((i: nat) => IsBoundary(text, i), lo, hi, target);
    if boundary.Some? then boundary.value
    else
      var closing := LastClosing(text, lo, Min(|text| - 1, hi));
      if closing.Some? then closing.value else hi
  }

  lemma BoundaryFirst(text: string, lo: nat, hi: nat, target: int)
    requires 1 <= lo <= hi <= |text| - 4
    ensures var boundary := ClosestBoundary((i: nat) => IsBoundary(text, i), lo, hi, target);
            && (boundary.Some? <==> HasBoundary(text, lo, hi))
            && (boundary.Some? ==> IsBestBoundary(text, boundary.value, lo, hi, target))
  {
    var isBoundary := (i: nat) => IsBoundary(text, i);
    var boundary := ClosestBoundary(isBoundary, lo, hi, target);
    assert forall i: nat :: isBoundary(i) == IsBoundary(text, i);
  }

  lemma CutInIs(text: string, lo: nat, hi: nat, target: int)
    requires 1 <= lo <= hi <= |text| - 4
    ensures var at := CutIn(text, lo, hi, target);
            if HasBoundary(text, lo, hi) then IsBestBoundary(text, at, lo, hi, target)
            else if HasClosing(text, lo, hi) then IsLastClosing(text, at, lo, hi)
            else at == hi
  {
    BoundaryFirst(text, lo, hi, target);
  }

  /** Where to cut a text that is too long; None when it fits or is too short to cut well. */
  function BestSplit(text: string, limit: int): (r: Option<nat>)
    ensures r.None? <==> |text| <= limit || MaxLeft(|text|, limit) < MinLeft(limit)
    ensures r.Some? ==> MinLeft(limit) <= r.value <= MaxLeft(|text|, limit)
  {
    var lo, hi := MinLeft(limit), MaxLeft(|text|, limit);
    if |text| <= limit || hi < lo then None
    else Some(CutIn(text, lo, hi, Min(limit, Max(|text| / 2, lo))))
  }

  /** The cut is a boundary close to the limit, or to the middle of a text of less than two
      lines, if there is one in the window. */
  lemma BestSplitIs(text: string, limit: int)
    requires BestSplit(text, limit).Some?
    ensures var at, lo, hi := BestSplit(text, limit).value, MinLeft(limit), MaxLeft(|text|, limit);
            if HasBoundary(text, lo, hi) then IsBestBoundary(text, at, lo, hi, Min(limit, Max(|text| / 2, lo)))
            else if HasClosing(text, lo, hi) then IsLastClosing(text, at, lo, hi)
            else at == hi
  {
    var lo, hi := MinLeft(limit), MaxLeft(|text|, limit);
    CutInIs(text, lo, hi, Min(limit, Max(|text| / 2, lo)));
  }

  /** Where a trimmed part is cut; None when it is a chunk. */
  function CutPoint(content: string, limit: int): (r: Option<int>)
    ensures r.None? <==> |content| <= limit
    ensures r.Some? && limit >= 1 ==> 0 < r.value < |content|
    ensures r.Some? ==> r.value == if BestSplit(content, limit).Some? then BestSplit(content, limit).value else limit
    ensures limit < 1 ==> BestSplit(content, limit).None?
  {
    var best := BestSplit(content, limit);
    if |content| <= limit && best.None? then None
    else if best.None? || best.value == 0 || best.value >= |content| then Some(limit)
    else Some(best.value)
  }

  /** The position a slice bound stands for: negative ones count from the end. */
  function Position(text: string, at: int): (r: nat)
    ensures r <= |text|
  {
    Min(if at >= 0 then at else Max(|text| + at, 0), |text|)
  }

  function LeftHalf(content: string, at: int): string {
    Trim(content[..Position(content, at)], IsSeparator)
  }

  function RightHalf(content: string, at: int): string {
    Trim(content[Position(content, at)..], IsSeparator)
  }

  predicate FitsLine(chunk: string, limit: int) {
    1 <= |chunk| <= limit && !IsSeparator(chunk[0]) && !IsSeparator(chunk[|chunk| - 1])
  }

  /** Splits until every chunk fits. The limit must be positive: see TerminatesIff. */
  function Split(text: string, limit: int): (chunks: seq<string>)
    requires limit >= 1
    ensures forall i | 0 <= i < |chunks| :: FitsLine(chunks[i], limit)
    decreases |text|
  {
    var content := Trim(text, IsSeparator);
    if content == "" then []
    else
      var at := CutPoint(content, limit);
      if at.None? then [content]
      else
        var left, right := LeftHalf(content, at.value), RightHalf(content, at.value);
        (if left != "" then Split(left, limit) else []) + (if right != "" then Split(right, limit) else [])
  }

  type Cut = string -> Option<int>

  ghost function CutFor(limit: int): Cut {
    content => CutPoint(content, limit)
  }

  /** Whether the splitting of a text ends within so many nested calls. */
  ghost predicate Ends(text: string, cut: Cut, depth: nat)
    decreases depth, 0
  {
    var content := Trim(text, IsSeparator);
    depth > 0 && (content == "" || HalvesEnd(content, cut, depth - 1))
  }

  ghost predicate HalvesEnd(content: string, cut: Cut, depth: nat)
    decreases depth, 1
  {
    var at := cut(content);
    at.None? ||
    var left, right := LeftHalf(content, at.value), RightHalf(content, at.value);
    (left != "" ==> Ends(left, cut, depth)) && (right != "" ==> Ends(right, cut, depth))
  }

  /** Whether the splitting of a text, with any limit, ever ends. */
  ghost predicate Terminates(text: string, limit: int) {
    exists depth: nat :: Ends(text, CutFor(limit), depth)
  }

  lemma {:induction false} EndsInTime(text: string, cut: Cut, depth: nat)
    requires Trim(text, IsSeparator) == "" || forall c :: cut(c).Some? ==> 0 < cut(c).value < |c|
    requires |text| < depth
    ensures Ends(text, cut, depth)
    decreases depth
  {
    var content := Trim(text, IsSeparator);
    var at := cut(content);
    if content != "" && at.Some? {
      EndsInTime(LeftHalf(content, at.value), cut, depth - 1);
      EndsInTime(RightHalf(content, at.value), cut, depth - 1);
    }
  }

  lemma LastStays(s: string)
    requires s != "" && !IsSeparator(s[|s| - 1])
    ensures Trim(s, IsSeparator) != ""
  {
    var left, right := TrimParts(s, IsSeparator);
    assert Trim(s, IsSeparator) == "" ==> s == left + right;
  }

  /** Without a positive limit, the right half is never blank: it is the whole text, or as many
      characters of its end as the limit says. */
  lemma RightHalfRemains(content: string, limit: int)
    requires content != "" && !IsSeparator(content[|content| - 1]) && limit < 1
    ensures Trim(RightHalf(content, limit), IsSeparator) != ""
  {
    LastStays(content[Position(content, limit)..]);
    LastStays(RightHalf(content, limit));
  }

  lemma {:induction false} NeverEnds(text: string, cut: Cut, limit: int, depth: nat)
    requires limit < 1 && forall c | c != "" :: cut(c) == Some(limit)
    requires Trim(text, IsSeparator) != ""
    ensures !Ends(text, cut, depth)
    decreases depth
  {
    if depth > 0 {
      var content := Trim(text, IsSeparator);
      RightHalfRemains(content, limit);
      NeverEnds(RightHalf(content, limit), cut, limit, depth - 1);
    }
  }

  /** The splitting ends if and only if the limit is positive or there is nothing but
      separators to split. */
  lemma TerminatesIff(text: string, limit: int)
    ensures Terminates(text, limit) <==> limit >= 1 || Trim(text, IsSeparator) == ""
  {
    if limit >= 1 || Trim(text, IsSeparator) == "" {
      EndsInTime(text, CutFor(limit), |text| + 1);
    } else {
      forall depth: nat
        ensures !Ends(text, CutFor(limit), depth)
      {
        NeverEnds(text, CutFor(limit), limit, depth);
      }
    }
  }

  /** gaps[0] + chunks[0] + gaps[1] + ... + gaps[|chunks|] */
  ghost function Weave(gaps: seq<string>, chunks: seq<string>): string
    requires |gaps| == |chunks| + 1
  {
    if chunks == [] then gaps[0] else gaps[0] + chunks[0] + Weave(gaps[1..], chunks[1..])
  }

  ghost predicate OnlySeparators(gaps: seq<string>) {
    forall i | 0 <= i < |gaps| :: All(gaps[i], IsSeparator)
  }

  lemma {:induction false} WeaveJoin(g: seq<string>, c: seq<string>, h: seq<string>, d: seq<string>)
    returns (gaps: seq<string>)
    requires |g| == |c| + 1 && |h| == |d| + 1
    requires OnlySeparators(g) && OnlySeparators(h)
    ensures |gaps| == |c + d| + 1 && OnlySeparators(gaps)
    ensures Weave(gaps, c + d) == Weave(g, c) + Weave(h, d)
    decreases |c|
  {
    if c == [] {
      gaps := [g[0] + h[0]] + h[1..];
      assert c + d == d;
      if d != [] {
        assert gaps[1..] == h[1..];
        assert g[0] + h[0] + d[0] + Weave(h[1..], d[1..]) == g[0] + (h[0] + d[0] + Weave(h[1..], d[1..]));
      }
    } else {
      var rest := WeaveJoin(g[1..], c[1..], h, d);
      gaps := [g[0]] + rest;
      assert (c + d)[1..] == c[1..] + d;
      assert gaps[1..] == rest;
      assert g[0] + c[0] + (Weave(g[1..], c[1..]) + Weave(h, d)) == g[0] + c[0] + Weave(g[1..], c[1..]) + Weave(h, d);
    }
  }

  /** Separators around a woven text are absorbed by its first and last gap. */
  lemma WeavePad(left: string, gaps: seq<string>, chunks: seq<string>, right: string) returns (padded: seq<string>)
    requires |gaps| == |chunks| + 1 && OnlySeparators(gaps)
    requires All(left, IsSeparator) && All(right, IsSeparator)
    ensures |padded| == |chunks| + 1 && OnlySeparators(padded)
    ensures Weave(padded, chunks) == left + Weave(gaps, chunks) + right
  {
    var a := WeaveJoin([left], [], gaps, chunks);
    assert [] + chunks == chunks;
    padded := WeaveJoin(a, chunks, [right], []);
    assert chunks + [] == chunks;
  }

  /** Nothing but separators is lost: the text is the chunks in order, untouched, with
      runs of separators around them. */
  lemma {:induction false} SplitWeaves(text: string, limit: int) returns (gaps: seq<string>)
    requires limit >= 1
    ensures |gaps| == |Split(text, limit)| + 1 && OnlySeparators(gaps)
    ensures Weave(gaps, Split(text, limit)) == text
    decreases |text|
  {
    var content := Trim(text, IsSeparator);
    var l, r := TrimParts(text, IsSeparator);
    if content == "" {
      gaps := [text];
      assert text == l + r;
      return;
    }
    var at := CutPoint(content, limit);
    if at.None? {
      gaps := [l, r];
      return;
    }
    var left, right := content[..at.value], content[at.value..];
    assert content == left + right;
    SplitInTwo(text, limit);
    var g := SplitPieceWeaves(left, limit, |text|);
    var h := SplitPieceWeaves(right, limit, |text|);
    var joined := WeaveJoin(g, Pieces(left, limit), h, Pieces(right, limit));
    gaps := WeavePad(l, joined, Split(text, limit), r);
  }

  lemma SplitInTwo(text: string, limit: int)
    requires limit >= 1
    ensures var content := Trim(text, IsSeparator);
            var at := CutPoint(content, limit);
            at.Some? ==> Split(text, limit) == Pieces(content[..at.value], limit) + Pieces(content[at.value..], limit)
  {
  }

  /** What Split makes of one half. */
  ghost function Pieces(half: string, limit: int): seq<string>
    requires limit >= 1
  {
    var t := Trim(half, IsSeparator);
    if t != "" then Split(t, limit) else []
  }

  lemma {:induction false} SplitPieceWeaves(half: string, limit: int, size: nat) returns (gaps: seq<string>)
    requires limit >= 1 && |half| < size
    ensures |gaps| == |Pieces(half, limit)| + 1 && OnlySeparators(gaps)
    ensures Weave(gaps, Pieces(half, limit)) == half
    decreases size, 0
  {
    var t := Trim(half, IsSeparator);
    var l, r := TrimParts(half, IsSeparator);
    if t == "" {
      gaps := [half];
      assert half == l + r;
    } else {
      var inner := SplitWeaves(t, limit);
      gaps := WeavePad(l, inner, Split(t, limit), r);
    }
  }
}
