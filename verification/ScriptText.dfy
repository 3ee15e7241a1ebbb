/** Narration scripts as text: white space, lines, the scanner for sentence atoms, and
    speech weights. */
module ScriptText {
  import opened Text

  // ---- characters

  predicate IsSpace(c: char) {
    || c == ' ' || c == '\t' || c == '\n' || c == '\r' || '\U{0B}' <= c <= '\U{0C}' || '\U{1C}' <= c <= '\U{1F}'
    || c == '\U{85}' || c == '\U{A0}' || c == '\U{1680}' || '\U{2000}' <= c <= '\U{200A}'
    || c == '\U{2028}' || c == '\U{2029}' || c == '\U{202F}' || c == '\U{205F}' || c == '\U{3000}'
  }

  predicate IsSentenceEnd(c: char) {
    c == '。' || c == '！' || c == '？' || c == '!' || c == '?' || c == '；' || c == ';'
  }

  predicate IsComma(c: char) {
    c == '，' || c == ',' || c == '、'
  }

  /** The characters no step may lose. */
  predicate IsVisible(c: char) {
    !IsSpace(c) && !IsSentenceEnd(c) && !IsComma(c)
  }

  predicate IsInk(c: char) {
    !IsSpace(c)
  }

  function Visible(s: string): string {
    Keep(s, IsVisible)
  }

  /** The number of characters that are not white space. */
  function Ink(s: string): nat {
    |Keep(s, IsInk)|
  }

  function Strip(s: string): string {
    Trim(s, IsSpace)
  }

  predicate Solid(s: string) {
    exists i | 0 <= i < |s| :: !IsSpace(s[i])
  }

  predicate Stripped(s: string) {
    s != "" ==> !IsSpace(s[0]) && !IsSpace(s[|s| - 1])
  }

  lemma VisibleConcat(a: string, b: string)
    ensures Visible(a + b) == Visible(a) + Visible(b)
  {
    KeepConcat(a, b, IsVisible);
  }

  lemma InkConcat(a: string, b: string)
    ensures Ink(a + b) == Ink(a) + Ink(b)
  {
    KeepConcat(a, b, IsInk);
  }

  lemma StripKeeps(s: string)
    ensures Visible(Strip(s)) == Visible(s) && Ink(Strip(s)) == Ink(s)
    ensures Stripped(Strip(s))
    ensures Strip(s) != "" <==> Solid(s)
  {
    KeepTrim(s, IsSpace, IsVisible);
    KeepTrim(s, IsSpace, IsInk);
    var left, right := TrimParts(s, IsSpace);
    if Strip(s) != "" {
      assert s[|left|] == Strip(s)[0];
    } else {
      assert s == left + right;
    }
  }

  /** Visible characters are ink. */
  lemma {:induction false} VisibleIsInk(s: string)
    ensures |Visible(s)| <= Ink(s)
  {
    if s != "" {
      VisibleIsInk(s[1..]);
    }
  }

  lemma {:induction false} InkAtMostLength(s: string)
    ensures Ink(s) <= |s|
    ensures s != "" && Stripped(s) ==> Ink(s) >= 1
  {
    if s != "" {
      InkAtMostLength(s[1..]);
    }
  }

  // ---- lines and white space

  function NormalizeNewlines(s: string): string {
    if s == "" then ""
    else if s[0] == '\r' then
      "\n" + (if |s| > 1 && s[1] == '\n' then NormalizeNewlines(s[2..]) else NormalizeNewlines(s[1..]))
    else [s[0]] + NormalizeNewlines(s[1..])
  }

  function SplitLines(s: string): (lines: seq<string>)
    ensures lines != []
  {
    if s == "" then [""]
    else
      var rest := SplitLines(s[1..]);
      if s[0] == '\n' then [""] + rest else [[s[0]] + rest[0]] + rest[1..]
  }

  /** Strips every part and drops the empty ones. */
  function StripAll(parts: seq<string>): (r: seq<string>)
    ensures |r| <= |parts|
    ensures forall i | 0 <= i < |r| :: r[i] != "" && Stripped(r[i])
  {
    if parts == [] then []
    else (if Strip(parts[0]) != "" then [Strip(parts[0])] else []) + StripAll(parts[1..])
  }

  /** Every run of white space becomes one blank. */
  function Collapse(s: string): string {
    if s == "" then ""
    else if !IsSpace(s[0]) then [s[0]] + Collapse(s[1..])
    else if |s| > 1 && IsSpace(s[1]) then Collapse(s[1..])
    else " " + Collapse(s[1..])
  }

  // ---- what lines and blanks are

  ghost predicate Without(s: string, c: char) {
    forall i | 0 <= i < |s| :: s[i] != c
  }

  /** Text without carriage returns is left alone; a line end of either kind becomes one. */
  lemma {:induction false} NewlinesAre(a: string, b: string)
    requires Without(a, '\r')
    ensures NormalizeNewlines(a) == a
    ensures NormalizeNewlines(a + "\r\n" + b) == a + "\n" + NormalizeNewlines(b)
    ensures (b == "" || b[0] != '\n') ==> NormalizeNewlines(a + "\r" + b) == a + "\n" + NormalizeNewlines(b)
  {
    if a == "" {
      assert ("" + "\r\n" + b)[2..] == b && ("" + "\r" + b)[1..] == b;
    } else {
      NewlinesAre(a[1..], b);
      assert (a + "\r\n" + b)[1..] == a[1..] + "\r\n" + b;
      assert (a + "\r" + b)[1..] == a[1..] + "\r" + b;
    }
  }

  /** Lines are what stands between line feeds. */
  lemma {:induction false} LinesAre(a: string, b: string)
    requires Without(a, '\n')
    ensures SplitLines(a) == [a] && SplitLines(a + "\n" + b) == [a] + SplitLines(b)
  {
    if a == "" {
      assert ("" + "\n" + b)[1..] == b;
    } else {
      LinesAre(a[1..], b);
      assert [a[0]] + a[1..] == a && SplitLines(b)[..] == SplitLines(b);
      assert (a + "\n" + b)[1..] == a[1..] + "\n" + b;
    }
  }

  /** A run of white space before other text becomes one blank. */
  lemma {:induction false} CollapseIs(a: string, blank: string, b: string)
    requires Keep(a, IsSpace) == "" && blank != "" && All(blank, IsSpace) && (b == "" || !IsSpace(b[0]))
    ensures Collapse(a + blank + b) == a + " " + Collapse(b)
    decreases |a| + |blank|
  {
    var s := a + blank + b;
    if a != "" {
      assert s[1..] == a[1..] + blank + b;
      CollapseIs(a[1..], blank, b);
    } else if |blank| > 1 {
      assert s[1..] == "" + blank[1..] + b;
      CollapseIs("", blank[1..], b);
    } else {
      assert s[1..] == b;
    }
  }

  lemma {:induction false} CollapseNothing(a: string)
    requires Keep(a, IsSpace) == ""
    ensures Collapse(a) == a
  {
    if a != "" {
      CollapseNothing(a[1..]);
    }
  }

  lemma {:induction false} StripAllConcat(a: seq<string>, b: seq<string>)
    ensures StripAll(a + b) == StripAll(a) + StripAll(b)
  {
    if a == [] {
      assert a + b == b;
    } else {
      assert (a + b)[1..] == a[1..] + b;
      StripAllConcat(a[1..], b);
    }
  }

  lemma FirstInvisible(s: string)
    requires s != "" && !IsVisible(s[0])
    ensures Visible(s) == Visible(s[1..])
  {
  }

  lemma {:induction false} NewlinesKeep(s: string)
    ensures Visible(NormalizeNewlines(s)) == Visible(s)
  {
    if s != "" {
      if s[0] == '\r' {
        if |s| > 1 && s[1] == '\n' {
          NewlinesKeep(s[2..]);
          VisibleConcat("\n", NormalizeNewlines(s[2..]));
          assert s == s[..2] + s[2..] && s[..2] == [s[0], s[1]];
          VisibleConcat(s[..2], s[2..]);
          assert Visible([s[1]]) == "" && s[..2][1..] == [s[1]];
        } else {
          NewlinesKeep(s[1..]);
          VisibleConcat("\n", NormalizeNewlines(s[1..]));
        }
      } else {
        NewlinesKeep(s[1..]);
      }
    }
  }

  lemma {:induction false} LinesKeep(s: string)
    ensures Visible(Flatten(SplitLines(s))) == Visible(s)
  {
    if s == "" {
      assert Flatten([""]) == "" + Flatten([]);
    } else {
      LinesKeep(s[1..]);
      var rest := SplitLines(s[1..]);
      if s[0] == '\n' {
        assert ([""] + rest)[1..] == rest && "" + Flatten(rest) == Flatten(rest);
        FirstInvisible(s);
      } else {
        FirstLineLonger(s[0], rest);
      }
    }
  }

  lemma FirstLineLonger(c: char, rest: seq<string>)
    requires rest != []
    ensures Visible(Flatten([[c] + rest[0]] + rest[1..])) == (if IsVisible(c) then [c] else "") + Visible(Flatten(rest))
  {
    var lines := [[c] + rest[0]] + rest[1..];
    assert lines[1..] == rest[1..];
    assert Flatten(lines) == [c] + Flatten(rest);
    VisibleConcat([c], Flatten(rest));
    assert [c][1..] == "" && Keep([c][1..], IsVisible) == "";
    assert Visible([c]) == (if IsVisible(c) then [c] else "") + Keep([c][1..], IsVisible);
  }

  lemma {:induction false} StripAllKeeps(parts: seq<string>)
    ensures Visible(Flatten(StripAll(parts))) == Visible(Flatten(parts))
    ensures Ink(Flatten(StripAll(parts))) == Ink(Flatten(parts))
  {
    if parts != [] {
      StripAllKeeps(parts[1..]);
      StripKeeps(parts[0]);
      VisibleConcat(parts[0], Flatten(parts[1..]));
      InkConcat(parts[0], Flatten(parts[1..]));
      if Strip(parts[0]) != "" {
        assert StripAll(parts) == [Strip(parts[0])] + StripAll(parts[1..]);
        assert Flatten(StripAll(parts)) == Strip(parts[0]) + Flatten(StripAll(parts[1..]));
        VisibleConcat(Strip(parts[0]), Flatten(StripAll(parts[1..])));
        InkConcat(Strip(parts[0]), Flatten(StripAll(parts[1..])));
      } else {
        assert Visible(parts[0]) == "" && Keep(parts[0], IsInk) == "";
        assert StripAll(parts) == [] + StripAll(parts[1..]);
        assert [] + StripAll(parts[1..]) == StripAll(parts[1..]);
      }
    }
  }

  lemma {:induction false} CollapseKeeps(s: string)
    ensures Visible(Collapse(s)) == Visible(s)
  {
    if s != "" {
      CollapseKeeps(s[1..]);
    }
  }

  // ---- scanning for atoms

  function PrefixLength(s: string, p: char -> bool): (n: nat)
    ensures n <= |s| && All(s[..n], p)
    ensures n < |s| ==> !p(s[n])
  {
    if s == "" || !p(s[0]) then 0
    else
      var n := PrefixLength(s[1..], p);
      assert s[..n + 1] == [s[0]] + s[1..][..n];
      n + 1
  }

  function Other(p: char -> bool): char -> bool {
    c => !p(c)
  }

  /** A run of other characters with the separator after it, or with all of them. */
  function AtomLength(s: string, separator: char -> bool, greedy: bool): (n: nat)
    requires s != "" && !separator(s[0])
    ensures 1 <= n <= |s|
  {
    var n := PrefixLength(s, Other(separator));
    n + if greedy then PrefixLength(s[n..], separator) else if n < |s| then 1 else 0
  }

  /** The runs with their separators; separators before the first run are passed over. */
  function FindAtoms(s: string, separator: char -> bool, greedy: bool): seq<string>
    decreases |s|
  {
    if s == "" then []
    else if separator(s[0]) then FindAtoms(s[1..], separator, greedy)
    else
      var n := AtomLength(s, separator, greedy);
      [s[..n]] + FindAtoms(s[n..], separator, greedy)
  }

  /** Separators at the beginning are no part of an atom; then a run of other characters is
      one with the separator behind it, or with all of them. */
  lemma {:induction false} AtomsAre(s: string, separator: char -> bool, greedy: bool, skipped: string, run: string, ends: string,
                                    rest: string)
    requires s == skipped + run + ends + rest && run != ""
    requires All(skipped, separator) && All(run, Other(separator)) && All(ends, separator)
    requires if greedy then rest == "" || (ends != "" && !separator(rest[0])) else |ends| == 1 || ends == rest == ""
    ensures FindAtoms(s, separator, greedy) == [run + ends] + FindAtoms(rest, separator, greedy)
    decreases |skipped|
  {
    if skipped != "" {
      assert s[0] == skipped[0] && s[1..] == skipped[1..] + run + ends + rest;
      AtomsAre(s[1..], separator, greedy, skipped[1..], run, ends, rest);
    } else {
      assert s == run + (ends + rest);
      FirstAtom(s, separator, greedy, run, ends, rest);
    }
  }

  lemma FirstAtom(s: string, separator: char -> bool, greedy: bool, run: string, ends: string, rest: string)
    requires s == run + (ends + rest) && run != "" && All(run, Other(separator)) && All(ends, separator)
    requires if greedy then rest == "" || (ends != "" && !separator(rest[0])) else |ends| == 1 || ends == rest == ""
    ensures FindAtoms(s, separator, greedy) == [run + ends] + FindAtoms(rest, separator, greedy)
  {
    assert s[0] == run[0] && !separator(s[0]);
    FirstAtomLength(s, separator, greedy, run, ends, rest);
    assert s[..|run| + |ends|] == run + ends && s[|run| + |ends|..] == rest;
  }

  lemma FirstAtomLength(s: string, separator: char -> bool, greedy: bool, run: string, ends: string, rest: string)
    requires s == run + (ends + rest) && run != "" && !separator(s[0]) && All(run, Other(separator)) && All(ends, separator)
    requires if greedy then rest == "" || (ends != "" && !separator(rest[0])) else |ends| == 1 || ends == rest == ""
    ensures AtomLength(s, separator, greedy) == |run| + |ends|
  {
    PrefixIs(run, ends + rest, Other(separator));
    assert s[|run|..] == ends + rest;
    if greedy {
      PrefixIs(ends, rest, separator);
    }
  }

  lemma NoAtoms(s: string, separator: char -> bool, greedy: bool)
    requires All(s, separator)
    ensures FindAtoms(s, separator, greedy) == []
  {
    if s != "" {
      NoAtoms(s[1..], separator, greedy);
    }
  }

  lemma {:induction false} PrefixIs(a: string, b: string, p: char -> bool)
    requires All(a, p) && (b == "" || !p(b[0]))
    ensures PrefixLength(a + b, p) == |a|
  {
    if a == "" {
      assert a + b == b;
    } else {
      assert (a + b)[1..] == a[1..] + b;
      PrefixIs(a[1..], b, p);
    }
  }

  lemma {:induction false} AtomsKeep(s: string, separator: char -> bool, greedy: bool)
    requires forall c :: separator(c) ==> !IsVisible(c)
    ensures Visible(Flatten(FindAtoms(s, separator, greedy))) == Visible(s)
    decreases |s|
  {
    if s == "" {
    } else if separator(s[0]) {
      AtomsKeep(s[1..], separator, greedy);
      FirstInvisible(s);
    } else {
      var n := AtomLength(s, separator, greedy);
      AtomsKeep(s[n..], separator, greedy);
      OneMoreAtom(s, n, FindAtoms(s[n..], separator, greedy));
    }
  }

  lemma OneMoreAtom(s: string, n: nat, rest: seq<string>)
    requires n <= |s| && Visible(Flatten(rest)) == Visible(s[n..])
    ensures Visible(Flatten([s[..n]] + rest)) == Visible(s)
  {
    assert s == s[..n] + s[n..];
    VisibleConcat(s[..n], s[n..]);
    assert ([s[..n]] + rest)[1..] == rest;
    VisibleConcat(s[..n], Flatten(rest));
  }

  /** The stripped, non-empty atoms of a text. */
  function Atoms(s: string, separator: char -> bool, greedy: bool): (atoms: seq<string>)
    ensures forall i | 0 <= i < |atoms| :: atoms[i] != "" && Stripped(atoms[i])
  {
    StripAll(FindAtoms(s, separator, greedy))
  }

  lemma AtomsVisible(s: string, separator: char -> bool, greedy: bool)
    requires forall c :: separator(c) ==> !IsVisible(c)
    ensures Visible(Flatten(Atoms(s, separator, greedy))) == Visible(s)
  {
    AtomsKeep(s, separator, greedy);
    StripAllKeeps(FindAtoms(s, separator, greedy));
  }

  // ---- speech weights

  predicate IsAsciiAlnum(c: char) {
    'A' <= c <= 'Z' || 'a' <= c <= 'z' || '0' <= c <= '9'
  }

  /** The characters that are spoken letter by letter, and the other ones that show. */
  predicate IsWordChar(c: char) { IsAsciiAlnum(c) }

  predicate IsOtherInk(c: char) { !IsAsciiAlnum(c) && !IsSpace(c) }

  /** How long a text takes to speak: white space nothing, an ASCII letter or digit 0.55. */
  function SpeechWeight(s: string): (w: real)
    ensures w >= 0.0
  {
    if s == "" then 0.0
    else (if IsSpace(s[0]) then 0.0 else if IsAsciiAlnum(s[0]) then 0.55 else 1.0) + SpeechWeight(s[1..])
  }

  lemma {:induction false} SpeechWeightCounts(s: string)
    ensures SpeechWeight(s) == |Keep(s, IsWordChar)| as real * 0.55 + |Keep(s, IsOtherInk)| as real
  {
    if s != "" {
      SpeechWeightCounts(s[1..]);
    }
  }

  function Weights(atoms: seq<string>): seq<real>
  {
    seq(|atoms|, i requires 0 <= i < |atoms| => SpeechWeight(atoms[i]))
  }

  function Lengths(atoms: seq<string>): seq<real>
  {
    seq(|atoms|, i requires 0 <= i < |atoms| => |atoms[i]| as real)
  }

  function Positive(xs: seq<real>): (r: seq<real>)
    ensures forall x :: x in r <==> x in xs && x > 0.0
  {
    if xs == [] then [] else (if xs[0] > 0.0 then [xs[0]] else []) + Positive(xs[1..])
  }

  function MaxOf(xs: seq<real>): (m: real)
    requires xs != []
    ensures m in xs && forall x | x in xs :: x <= m
  {
    if |xs| == 1 then xs[0]
    else
      var m := MaxOf(xs[1..]);
      assert xs == [xs[0]] + xs[1..];
      if xs[0] >= m then xs[0] else m
  }

  function MinOf(xs: seq<real>): (m: real)
    requires xs != []
    ensures m in xs && forall x | x in xs :: m <= x
  {
    if |xs| == 1 then xs[0]
    else
      var m := MinOf(xs[1..]);
      assert xs == [xs[0]] + xs[1..];
      if xs[0] <= m then xs[0] else m
  }

  /** The largest of xs is at least 1.9 times the smallest (at least floor). */
  predicate Lopsided(xs: seq<real>, floor: real)
    requires xs != []
  {
    var low := if MinOf(xs) >= floor then MinOf(xs) else floor;
    MaxOf(xs) >= 1.9 * low
  }

  predicate NeedsSplit(atoms: seq<string>, total: int)
    requires atoms != []
  {
    || (|atoms| < total && |atoms| == 1)
    || (|atoms| == total && Positive(Weights(atoms)) != []
        && (Lopsided(Positive(Weights(atoms)), 0.0) || Lopsided(Lengths(atoms), 1.0)))
  }

  /** Some text is at least 1.9 times as heavy as another one that weighs anything. */
  ghost predicate UnevenWeights(atoms: seq<string>) {
    exists a, b :: a in atoms && b in atoms && SpeechWeight(b) > 0.0 && SpeechWeight(a) >= 1.9 * SpeechWeight(b)
  }

  /** Some text has at least 1.9 characters for each one of another text, and for one. */
  ghost predicate UnevenLengths(atoms: seq<string>) {
    exists a, b :: a in atoms && b in atoms && |a| as real >= 1.9 * |b| as real && |a| as real >= 1.9
  }

  lemma LopsidedIff(xs: seq<real>, floor: real)
    requires xs != []
    ensures Lopsided(xs, floor) <==> exists x, y :: x in xs && y in xs && x >= 1.9 * y && x >= 1.9 * floor
  {
    if Lopsided(xs, floor) {
      assert MaxOf(xs) in xs && MinOf(xs) in xs;
    }
  }

  lemma WeightsUneven(atoms: seq<string>)
    requires Positive(Weights(atoms)) != []
    ensures Lopsided(Positive(Weights(atoms)), 0.0) <==> UnevenWeights(atoms)
  {
    var xs := Positive(Weights(atoms));
    LopsidedIff(xs, 0.0);
    if UnevenWeights(atoms) {
      var a, b :| a in atoms && b in atoms && SpeechWeight(b) > 0.0 && SpeechWeight(a) >= 1.9 * SpeechWeight(b);
      var i :| 0 <= i < |atoms| && atoms[i] == a;
      var j :| 0 <= j < |atoms| && atoms[j] == b;
      assert Weights(atoms)[i] in xs && Weights(atoms)[j] in xs;
    }
    if x, y :| x in xs && y in xs && x >= 1.9 * y && x >= 0.0 {
      var i :| 0 <= i < |atoms| && Weights(atoms)[i] == x;
      var j :| 0 <= j < |atoms| && Weights(atoms)[j] == y;
      assert atoms[i] in atoms && atoms[j] in atoms;
    }
  }

  lemma LengthsUneven(atoms: seq<string>)
    requires atoms != []
    ensures Lopsided(Lengths(atoms), 1.0) <==> UnevenLengths(atoms)
  {
    var xs := Lengths(atoms);
    LopsidedIff(xs, 1.0);
    if UnevenLengths(atoms) {
      var a, b :| a in atoms && b in atoms && |a| as real >= 1.9 * |b| as real && |a| as real >= 1.9;
      var i :| 0 <= i < |atoms| && atoms[i] == a;
      var j :| 0 <= j < |atoms| && atoms[j] == b;
      assert xs[i] in xs && xs[j] in xs;
    }
    if x, y :| x in xs && y in xs && x >= 1.9 * y && x >= 1.9 {
      var i :| 0 <= i < |atoms| && xs[i] == x;
      var j :| 0 <= j < |atoms| && xs[j] == y;
      assert atoms[i] in atoms && atoms[j] in atoms;
    }
  }

  /** When atoms have to be split: a single one that is not enough, or as many as wanted, but
      uneven. */
  lemma NeedsSplitIff(atoms: seq<string>, total: int)
    requires atoms != []
    ensures NeedsSplit(atoms, total) <==>
            || |atoms| == 1 < total
            || (&& |atoms| == total && (exists a :: a in atoms && SpeechWeight(a) > 0.0)
                && (UnevenWeights(atoms) || UnevenLengths(atoms)))
  {
    LengthsUneven(atoms);
    if Positive(Weights(atoms)) != [] {
      WeightsUneven(atoms);
      var x := Positive(Weights(atoms))[0];
      assert x in Positive(Weights(atoms));
      var i :| 0 <= i < |atoms| && Weights(atoms)[i] == x;
      assert atoms[i] in atoms;
    }
    if a :| a in atoms && SpeechWeight(a) > 0.0 {
      var i :| 0 <= i < |atoms| && atoms[i] == a;
      assert Weights(atoms)[i] in Positive(Weights(atoms));
    }
  }

  /** The first index of a largest value. */
  method FirstMax(xs: seq<real>) returns (index: nat)
    requires xs != []
    ensures index < |xs|
    ensures forall j | 0 <= j < |xs| :: xs[j] <= xs[index]
    ensures forall j | 0 <= j < index :: xs[j] < xs[index]
  {
    index := 0;
    for i := 1 to |xs|
      invariant index < i
      invariant forall j | 0 <= j < i :: xs[j] <= xs[index]
      invariant forall j | 0 <= j < index :: xs[j] < xs[index]
    {
      if xs[i] > xs[index] {
        index := i;
      }
    }
  }

  // ---- refining the atoms

  function Replace(atoms: seq<string>, i: nat, pieces: seq<string>): (r: seq<string>)
    requires i < |atoms|
    ensures |r| == |atoms| - 1 + |pieces|
    ensures forall a | a in r :: a in atoms || a in pieces
  {
    atoms[..i] + pieces + atoms[i + 1..]
  }

  lemma ReplaceKeeps(atoms: seq<string>, i: nat, pieces: seq<string>)
    requires i < |atoms| && Visible(Flatten(pieces)) == Visible(atoms[i])
    ensures Visible(Flatten(Replace(atoms, i, pieces))) == Visible(Flatten(atoms))
  {
    var l, r := atoms[..i], atoms[i + 1..];
    assert atoms == l + ([atoms[i]] + r);
    FlattenConcat(l, [atoms[i]] + r);
    assert ([atoms[i]] + r)[1..] == r;
    FlattenConcat(l + pieces, r);
    FlattenConcat(l, pieces);
    VisibleConcat(Flatten(l), atoms[i] + Flatten(r));
    VisibleConcat(atoms[i], Flatten(r));
    VisibleConcat(Flatten(l) + Flatten(pieces), Flatten(r));
    VisibleConcat(Flatten(l), Flatten(pieces));
  }

  lemma {:induction false} FlattenSolid(atoms: seq<string>)
    requires atoms != [] && forall a | a in atoms :: Solid(a)
    ensures Solid(Flatten(atoms))
  {
    assert Solid(atoms[0]);
    var i :| 0 <= i < |atoms[0]| && !IsSpace(atoms[0][i]);
    assert atoms[0] in atoms;
    assert Flatten(atoms)[i] == atoms[0][i];
  }
}
