/** Which camera view each storyboard segment shows. */
module ViewSequence {

  /** The scene words of a text or of a view. */
  type Markers = set<string>

  /** How many markers of the text a view has. */
  function Shared(text: Markers, scenes: nat -> Markers, view: nat): nat {
    |text * scenes(view)|
  }

  /** A marker of the text counts once if the view has it, and not at all otherwise. */
  lemma SharedMarker(text: Markers, scenes: nat -> Markers, view: nat, w: string)
    requires w !in text
    ensures Shared({}, scenes, view) == 0
    ensures Shared(text + {w}, scenes, view) == Shared(text, scenes, view) + (if w in scenes(view) then 1 else 0)
  {
    assert {} * scenes(view) == {};
    assert (text + {w}) * scenes(view) == text * scenes(view) + (if w in scenes(view) then {w} else {});
  }

  /** The view that shares the most markers with the text, the earlier one of two; the
      first available view when no view shares one. */
  ghost predicate Picked(available: seq<nat>, text: Markers, scenes: nat -> Markers, view: nat) {
    if exists v :: v in available && text * scenes(v) != {} then
      view in available && forall v | v in available :: Beats(text, scenes, view, v)
    else
      available != [] && view == available[0]
  }

  ghost predicate Beats(text: Markers, scenes: nat -> Markers, view: nat, other: nat) {
    || Shared(text, scenes, other) < Shared(text, scenes, view)
    || (Shared(text, scenes, other) == Shared(text, scenes, view) && view <= other)
  }

  /** Scores the available views, unless the text has no markers. */
  method PickView(available: seq<nat>, text: Markers, scenes: nat -> Markers) returns (view: nat)
    ensures available == [] ==> view == 0
    ensures available != [] ==> Picked(available, text, scenes, view)
  {
    if available == [] {
      return 0;
    }
    if text != {} {
      var best := available[0];
      for i := 1 to |available|
        invariant best in available[..i]
        invariant forall v | v in available[..i] :: Beats(text, scenes, best, v)
      {
        var v := available[i];
        assert available[..i + 1] == available[..i] + [v];
        var shared, most := Shared(text, scenes, v), Shared(text, scenes, best);
        if most < shared || (most == shared && v < best) {
          best := v;
        }
      }
      assert available[..|available|] == available;
      if Shared(text, scenes, best) > 0 {
        return best;
      }
    }
    assert text == {} ==> forall v | v in available :: text * scenes(v) == {};
    view := available[0];
  }

  /** The views lo..hi that are not used. */
  function Unused(lo: nat, hi: nat, used: set<nat>): (r: seq<nat>)
    requires lo <= hi
    ensures forall v :: v in r <==> lo <= v < hi && v !in used
    decreases hi - lo
  {
    if lo == hi then [] else (if lo in used then [] else [lo]) + Unused(lo + 1, hi, used)
  }

  ghost predicate Distinct(s: seq<nat>) {
    forall i, j | 0 <= i < j < |s| :: s[i] != s[j]
  }

  /** The middle views: all but the main view, and but the last one when it is the main
      view again. */
  function MiddleStop(views: nat, reuseLast: bool): (stop: nat)
    ensures reuseLast && views > 2 ==> stop + 1 == views
    ensures !reuseLast || views <= 2 ==> stop == views
  {
    if reuseLast && views > 2 then views - 1 else views
  }

  function Without(s: seq<nat>, k: nat): (t: seq<nat>)
    requires k < |s|
    ensures |t| == |s| - 1
  {
    s[..k] + s[k + 1..]
  }

  /** A sequence of distinct numbers without the one at k. */
  lemma WithoutOne(s: seq<nat>, k: nat)
    requires Distinct(s) && k < |s|
    ensures Distinct(Without(s, k))
    ensures forall v :: v in Without(s, k) <==> v in s && v != s[k]
  {
    var t := Without(s, k);
    forall i, j | 0 <= i < j < |t|
      ensures t[i] != t[j]
    {
      var i', j' := if i < k then i else i + 1, if j < k then j else j + 1;
      assert t[i] == s[i'] && t[j] == s[j'];
    }
    forall v | v in t
      ensures v in s && v != s[k]
    {
      var j :| 0 <= j < |t| && t[j] == v;
      assert t[j] == if j < k then s[j] else s[j + 1];
    }
    forall v | v in s && v != s[k]
      ensures v in t
    {
      var j :| 0 <= j < |s| && s[j] == v;
      assert s[j] == if j < k then t[j] else t[j - 1];
    }
  }

  /** Distinct numbers of lo..hi are no more than there are, and as many only if they are
      all of them. */
  lemma {:induction false} Pigeonhole(s: seq<nat>, lo: nat, hi: nat)
    requires lo <= hi && Distinct(s) && forall v | v in s :: lo <= v < hi
    ensures |s| <= hi - lo
    ensures |s| == hi - lo <==> forall v | lo <= v < hi :: v in s
    decreases hi
  {
    if lo == hi {
      assert forall i | 0 <= i < |s| :: s[i] in s;
    } else if hi - 1 in s {
      var k :| 0 <= k < |s| && s[k] == hi - 1;
      WithoutOne(s, k);
      Pigeonhole(Without(s, k), lo, hi - 1);
    } else {
      Pigeonhole(s, lo, hi - 1);
    }
  }

  /** The views given to the middle positions so far: no view twice before every view has
      had its turn. */
  ghost predicate Rotation(given: seq<nat>, stop: nat)
    requires stop >= 2
  {
    && (forall i | 0 <= i < |given| :: 1 <= given[i] < stop)
    && Distinct(given[..if |given| <= stop - 1 then |given| else stop - 1])
  }

  lemma ExtendRotation(given: seq<nat>, view: nat, stop: nat)
    requires stop >= 2 && Rotation(given, stop) && 1 <= view < stop
    requires view !in given || forall v | 1 <= v < stop :: v in given
    ensures Rotation(given + [view], stop)
  {
    var next := given + [view];
    if |given| < stop - 1 {
      assert given[..|given|] == given && next[..|next|] == next;
      Pigeonhole(given, 1, stop);
    } else {
      assert next[..stop - 1] == given[..stop - 1];
    }
  }

  /** As soon as there are as many positions as middle views, the first of them show each
      middle view exactly once. */
  lemma RotationIsPermutation(given: seq<nat>, stop: nat, view: nat)
    requires stop >= 2 && Rotation(given, stop) && |given| >= stop - 1
    ensures Distinct(given[..stop - 1])
    ensures view in given[..stop - 1] <==> 1 <= view < stop
  {
    Pigeonhole(given[..stop - 1], 1, stop);
  }

  ghost function Elements(given: seq<nat>): set<nat> {
    set v | v in given
  }

  /** The views that may come next: the unused ones, or all when all are used. */
  function Available(used: set<nat>, stop: nat): (r: seq<nat>)
    requires stop >= 2
    ensures r != []
  {
    if Unused(1, stop, used) != [] then Unused(1, stop, used)
    else
      assert 1 in Unused(1, stop, {});
      Unused(1, stop, {})
  }

  /** The view for one middle position. */
  method NextView(used: set<nat>, stop: nat, text: Markers, scenes: nat -> Markers) returns (view: nat)
    requires stop >= 2
    ensures 1 <= view < stop
    ensures view !in used || forall v | 1 <= v < stop :: v in used
    ensures Picked(Available(used, stop), text, scenes, view)
  {
    var available := Unused(1, stop, used);
    if available == [] {
      available := Unused(1, stop, {});
    }
    assert available == Available(used, stop);
    view := PickView(available, text, scenes);
    ghost var unused := Unused(1, stop, used);
    assert forall v | 1 <= v < stop :: v in used || v in unused;
  }

  /** Every view is the best one for its text among those that may come next. */
  ghost predicate WellChosen(given: seq<nat>, stop: nat, texts: nat -> Markers, scenes: nat -> Markers)
    requires stop >= 2
  {
    forall k | 0 <= k < |given| :: ChosenAt(given, k, stop, texts, scenes)
  }

  ghost predicate ChosenAt(given: seq<nat>, k: nat, stop: nat, texts: nat -> Markers, scenes: nat -> Markers)
    requires stop >= 2 && k < |given|
  {
    Picked(Available(Elements(given[..k]), stop), texts(k + 1), scenes, given[k])
  }

  lemma ExtendChosen(given: seq<nat>, view: nat, stop: nat, texts: nat -> Markers, scenes: nat -> Markers)
    requires stop >= 2 && WellChosen(given, stop, texts, scenes)
    requires Picked(Available(Elements(given), stop), texts(|given| + 1), scenes, view)
    ensures WellChosen(given + [view], stop, texts, scenes)
  {
    var next := given + [view];
    forall k | 0 <= k < |next|
      ensures ChosenAt(next, k, stop, texts, scenes)
    {
      assert next[..k] == given[..k];
      if k < |given| {
        assert ChosenAt(given, k, stop, texts, scenes);
      } else {
        assert given[..k] == given;
      }
    }
  }

  /** The sequence after the middle positions below pos have got their views. */
  ghost predicate MiddleFilled(sequence: seq<nat>, pos: nat, stop: nat, texts: nat -> Markers, scenes: nat -> Markers)
    requires stop >= 2
  {
    && 1 <= pos <= |sequence| && sequence[0] == 0
    && (forall i | pos <= i < |sequence| :: sequence[i] == 0)
    && Rotation(sequence[1..pos], stop) && WellChosen(sequence[1..pos], stop, texts, scenes)
  }

  lemma FillOne(sequence: seq<nat>, pos: nat, view: nat, stop: nat, texts: nat -> Markers, scenes: nat -> Markers)
    requires stop >= 2 && MiddleFilled(sequence, pos, stop, texts, scenes) && pos < |sequence|
    requires 1 <= view < stop && (view !in Elements(sequence[1..pos]) || forall v | 1 <= v < stop :: v in Elements(sequence[1..pos]))
    requires Picked(Available(Elements(sequence[1..pos]), stop), texts(pos), scenes, view)
    ensures MiddleFilled(sequence[pos := view], pos + 1, stop, texts, scenes)
    ensures Elements(sequence[pos := view][1..pos + 1]) == Elements(sequence[1..pos]) + {view}
  {
    var given := sequence[1..pos];
    assert |given| + 1 == pos && forall v: nat :: v in given <==> v in Elements(given);
    ExtendRotation(given, view, stop);
    ExtendChosen(given, view, stop, texts, scenes);
    assert sequence[pos := view][1..pos + 1] == given + [view];
  }

  /** The loop over the middle positions. */
  method FillMiddle(segments: nat, last: nat, stop: nat, texts: nat -> Markers, scenes: nat -> Markers)
    returns (sequence: seq<nat>)
    requires stop >= 2 && 1 <= last <= segments
    ensures |sequence| == segments && MiddleFilled(sequence, last, stop, texts, scenes)
  {
    sequence := seq(segments, _ => 0);
    var used: set<nat> := {};
    for pos := 1 to last
      invariant |sequence| == segments && MiddleFilled(sequence, pos, stop, texts, scenes)
      invariant used == Elements(sequence[1..pos])
    {
      var view := NextView(used, stop, texts(pos), scenes);
      FillOne(sequence, pos, view, stop, texts, scenes);
      sequence := sequence[pos := view];
      used := used + {view};
    }
  }

  /** The sequence of views. Whatever the markers are, the middle positions use every middle
      view once before any is used again, and take the best view for their text among
      those left. */
  method Sequence(segmentCount: int, viewCount: int, closing: bool, reuseLast: bool,
                  texts: nat -> Markers, scenes: nat -> Markers)
    returns (sequence: seq<nat>)
    ensures |sequence| == if segmentCount >= 1 then segmentCount else 1
    ensures sequence[0] == 0
    ensures forall i | 0 <= i < |sequence| :: sequence[i] < (if viewCount >= 1 then viewCount else 1)
    ensures |sequence| >= 3 || (|sequence| == 2 && closing) ==> sequence[|sequence| - 1] == 0
    ensures viewCount >= 2 && |sequence| >= 2 ==>
              var last := if |sequence| >= 3 || closing then |sequence| - 1 else |sequence|;
              var stop := if reuseLast && viewCount >= 3 then viewCount - 1 else viewCount;
              Rotation(sequence[1..last], stop) && WellChosen(sequence[1..last], stop, texts, scenes)
  {
    var segments := if segmentCount >= 1 then segmentCount else 1;
    var views := if viewCount >= 1 then viewCount else 1;
    if views <= 1 {
      return seq(segments, _ => 0);
    }
    if segments <= 1 {
      return [0];
    }
    var stop := MiddleStop(views, reuseLast);
    var last := if segments >= 3 || closing then segments - 1 else segments;
    sequence := FillMiddle(segments, last, stop, texts, scenes);
    forall i | 0 <= i < segments
      ensures sequence[i] < views
    {
      assert 1 <= i < last ==> sequence[i] == sequence[1..last][i - 1];
    }
  }
}
