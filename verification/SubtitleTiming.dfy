/** Where subtitles appear: coercing dialogue ranges into an ordered track, and the
    event loops that write them. Times are exact, before rounding to milliseconds. */
module SubtitleTiming {
  import opened Reals

  datatype Range = Range(start: real, end: real)

  function Clamp(x: real, lo: real, hi: real): real { Max(lo, Min(x, hi)) }

  const MIN_DIALOGUE := 0.1
  const EVENT_GAP := 0.03
  const EVENT_FALLBACK := 0.35

  // ---- coercing dialogue ranges

  function TrackLength(duration: real): (total: real)
    ensures total >= MIN_DIALOGUE && total >= duration && (total == MIN_DIALOGUE || total == duration)
  {
    Max(duration, MIN_DIALOGUE)
  }

  function CoerceOne(r: Range, previousEnd: real, total: real): Range {
    var start := Clamp(r.start, 0.0, total);
    var end := Max(Min(r.end, total), start);
    var start' := Max(start, previousEnd);
    var end' := if end < start' + MIN_DIALOGUE then Min(total, start' + MIN_DIALOGUE) else end;
    Range(start', if end' <= start' then Min(total, start' + MIN_DIALOGUE) else end')
  }

  function CoerceFrom(ranges: seq<Range>, previousEnd: real, total: real): seq<Range> {
    if ranges == [] then []
    else
      var r := CoerceOne(ranges[0], previousEnd, total);
      [r] + CoerceFrom(ranges[1..], r.end, total)
  }

  /** One round of the loop. */
  method CoerceRange(r: Range, previousEnd: real, total: real) returns (out: Range)
    ensures out == CoerceOne(r, previousEnd, total)
  {
    var start := Max(Min(r.start, total), 0.0);
    var end := Max(Min(r.end, total), start);
    start := Max(start, previousEnd);
    if end < start + MIN_DIALOGUE {
      end := Min(total, start + MIN_DIALOGUE);
    }
    if end <= start {
      end := Min(total, start + MIN_DIALOGUE);
    }
    out := Range(start, end);
  }

  method CoerceMonotonic(ranges: seq<Range>, duration: real) returns (out: seq<Range>)
    ensures out == CoerceFrom(ranges, 0.0, TrackLength(duration))
  {
    var total := Max(duration, MIN_DIALOGUE);
    out := [];
    var previousEnd := 0.0;
    for i := 0 to |ranges|
      invariant out + CoerceFrom(ranges[i..], previousEnd, total) == CoerceFrom(ranges, 0.0, total)
    {
      var r := CoerceRange(ranges[i], previousEnd, total);
      assert ranges[i..][1..] == ranges[i + 1..];
      out := out + [r];
      previousEnd := r.end;
    }
  }

  /** An ordered track inside floor..total whose ranges have the minimum length unless
      they are cut off by the end. */
  ghost predicate Track(out: seq<Range>, floor: real, total: real) {
    && (forall i | 0 <= i < |out| ::
          && floor <= out[i].start <= out[i].end <= total
          && (out[i].end - out[i].start >= MIN_DIALOGUE || out[i].end == total))
    && forall i | 0 <= i < |out| - 1 :: out[i].end <= out[i + 1].start
  }

  lemma {:induction false} CoerceTrack(ranges: seq<Range>, previousEnd: real, total: real)
    requires 0.0 <= previousEnd <= total
    ensures |CoerceFrom(ranges, previousEnd, total)| == |ranges|
    ensures Track(CoerceFrom(ranges, previousEnd, total), previousEnd, total)
  {
    if ranges != [] {
      var r := CoerceOne(ranges[0], previousEnd, total);
      CoerceTrack(ranges[1..], r.end, total);
      var rest := CoerceFrom(ranges[1..], r.end, total);
      var out := CoerceFrom(ranges, previousEnd, total);
      assert out == [r] + rest;
      forall i | 0 <= i < |out| - 1
        ensures out[i].end <= out[i + 1].start
      {
        if i > 0 {
          assert out[i] == rest[i - 1] && out[i + 1] == rest[i - 1 + 1];
        }
      }
    }
  }

  /** The end of the range before range k, after coercion. */
  ghost function EndBefore(out: seq<Range>, k: nat, previousEnd: real): real
    requires k <= |out|
  {
    if k == 0 then previousEnd else out[k - 1].end
  }

  /** Whatever the ranges are, each starts as early as itself and the one before allow, and
      keeps its own end unless that makes it shorter than the minimum. */
  lemma {:induction false} CoerceExactly(ranges: seq<Range>, previousEnd: real, total: real, k: nat)
    requires 0.0 <= previousEnd <= total && k < |ranges|
    ensures var out := CoerceFrom(ranges, previousEnd, total);
            && |out| == |ranges|
            && out[k].start == Max(Min(ranges[k].start, total), EndBefore(out, k, previousEnd))
            && out[k].end == (if Min(ranges[k].end, total) >= out[k].start + MIN_DIALOGUE then Min(ranges[k].end, total)
                              else Min(total, out[k].start + MIN_DIALOGUE))
  {
    var r := CoerceOne(ranges[0], previousEnd, total);
    CoerceTrack(ranges, previousEnd, total);
    CoerceTrack(ranges[1..], r.end, total);
    if k > 0 {
      CoerceExactly(ranges[1..], r.end, total, k - 1);
    }
  }

  /** The tracks are exactly what coercion leaves alone. */
  lemma {:induction false} CoerceFixpoint(ranges: seq<Range>, previousEnd: real, total: real)
    requires 0.0 <= previousEnd <= total
    ensures CoerceFrom(ranges, previousEnd, total) == ranges <==> Track(ranges, previousEnd, total)
  {
    CoerceTrack(ranges, previousEnd, total);
    if Track(ranges, previousEnd, total) {
      TrackKept(ranges, previousEnd, total);
    }
  }

  lemma {:induction false} TrackKept(ranges: seq<Range>, previousEnd: real, total: real)
    requires 0.0 <= previousEnd <= total
    requires Track(ranges, previousEnd, total)
    ensures CoerceFrom(ranges, previousEnd, total) == ranges
  {
    if ranges != [] {
      assert CoerceOne(ranges[0], previousEnd, total) == ranges[0];
      forall i | 0 <= i < |ranges[1..]|
        ensures ranges[0].end <= ranges[1..][i].start
      {
        TrackOrdered(ranges, previousEnd, total, 0, i + 1);
      }
      TrackKept(ranges[1..], ranges[0].end, total);
    }
  }

  lemma {:induction false} TrackOrdered(ranges: seq<Range>, floor: real, total: real, i: nat, j: nat)
    requires Track(ranges, floor, total)
    requires i < j < |ranges|
    ensures ranges[i].end <= ranges[j].start
    decreases j - i
  {
    if i + 1 < j {
      TrackOrdered(ranges, floor, total, i, j - 1);
      assert ranges[j - 1].end <= ranges[j - 1 + 1].start;
    }
  }

  // ---- writing events

  /** What becomes of one chunk: an event on screen, or nothing. */
  datatype Slot = Skipped | Shown(start: real, end: real)

  function ShiftOf(seconds: real): (shift: real)
    ensures -2.0 <= shift <= 2.0 && (-2.0 <= seconds <= 2.0 ==> shift == seconds)
    ensures (seconds > 2.0 ==> shift == 2.0) && (seconds < -2.0 ==> shift == -2.0)
  {
    Min(Max(seconds, -2.0), 2.0)
  }

  /** The end of the last event among the first n slots. */
  ghost function EndOf(slots: seq<Slot>, n: nat, floor: real): real
    requires n <= |slots|
  {
    if n == 0 then floor
    else if slots[n - 1].Shown? then slots[n - 1].end
    else EndOf(slots, n - 1, floor)
  }

  /** A chunk is skipped exactly when no time is left for it. A shown chunk starts as
      early as its range, the room and the gap allow, and keeps the end of its range
      when that still lies ahead. */
  ghost predicate Placed(slot: Slot, r: Range, lo: real, hi: real, lastEnd: real) {
    match slot
    case Skipped => r.start >= hi || lastEnd + EVENT_GAP >= hi
    case Shown(start, end) =>
      && start == Max(Max(r.start, lo), lastEnd + EVENT_GAP) < hi
      && end == Min(hi, if r.end > start then r.end else start + EVENT_FALLBACK)
  }

  ghost predicate PlacedAt(slots: seq<Slot>, ranges: seq<Range>, j: nat, lo: real, hi: real, floor: real)
    requires j < |slots| && j < |ranges|
  {
    Placed(slots[j], ranges[j], lo, hi, EndOf(slots, j, floor))
  }

  ghost predicate Placement(slots: seq<Slot>, ranges: seq<Range>, n: nat, lo: real, hi: real, floor: real)
    requires n <= |ranges|
  {
    && n <= |slots|
    && forall j | 0 <= j < n :: PlacedAt(slots, ranges, j, lo, hi, floor)
  }

  lemma {:induction false} EndOfPrefix(slots: seq<Slot>, more: seq<Slot>, n: nat, floor: real)
    requires n <= |slots|
    ensures EndOf(slots + more, n, floor) == EndOf(slots, n, floor)
  {
    if n > 0 {
      EndOfPrefix(slots, more, n - 1, floor);
    }
  }

  lemma ExtendPlacement(slots: seq<Slot>, slot: Slot, ranges: seq<Range>, n: nat, lo: real, hi: real, floor: real)
    requires n == |slots| < |ranges| && Placement(slots, ranges, n, lo, hi, floor)
    requires Placed(slot, ranges[n], lo, hi, EndOf(slots, n, floor))
    ensures Placement(slots + [slot], ranges, n + 1, lo, hi, floor)
  {
    forall j | 0 <= j < n + 1
      ensures PlacedAt(slots + [slot], ranges, j, lo, hi, floor)
    {
      EndOfPrefix(slots, [slot], j, floor);
      assert j < n ==> PlacedAt(slots, ranges, j, lo, hi, floor);
    }
  }

  /** The event loop over the chunks of one segment, or of the whole video. */
  method PlaceChunks(ranges: seq<Range>, lo: real, hi: real, floor: real)
    returns (slots: seq<Slot>, lastEnd: real)
    requires lo < hi
    ensures |slots| == |ranges| && Placement(slots, ranges, |ranges|, lo, hi, floor)
    ensures lastEnd == EndOf(slots, |slots|, floor)
  {
    slots, lastEnd := [], floor;
    for n := 0 to |ranges|
      invariant |slots| == n && Placement(slots, ranges, n, lo, hi, floor)
      invariant lastEnd == EndOf(slots, n, floor)
    {
      var start := Min(Max(ranges[n].start, lo), hi);
      var end := Min(Max(ranges[n].end, start), hi);
      if start < lastEnd + EVENT_GAP {
        start := Min(hi, lastEnd + EVENT_GAP);
      }
      if end <= start {
        end := Min(hi, start + EVENT_FALLBACK);
      }
      if end <= start {
        ExtendPlacement(slots, Skipped, ranges, n, lo, hi, floor);
        EndOfPrefix(slots, [Skipped], n, floor);
        slots := slots + [Skipped];
        continue;
      }
      ExtendPlacement(slots, Shown(start, end), ranges, n, lo, hi, floor);
      lastEnd := end;
      slots := slots + [Shown(start, end)];
    }
  }

  function Shifted(ranges: seq<Range>, offset: real): (shifted: seq<Range>)
    ensures |shifted| == |ranges|
    ensures forall i | 0 <= i < |ranges| ::
              shifted[i].start - ranges[i].start == offset && shifted[i].end - ranges[i].end == offset
  {
    seq(|ranges|, i requires 0 <= i < |ranges| => Range(ranges[i].start + offset, ranges[i].end + offset))
  }

  /** The events of one subtitle track for a whole video. */
  method WriteEvents(ranges: seq<Range>, duration: real, shiftSeconds: real) returns (slots: seq<Slot>)
    ensures |slots| == |ranges|
    ensures Placement(slots, Shifted(ranges, ShiftOf(shiftSeconds)), |ranges|, 0.0, TrackLength(duration), 0.0)
  {
    var lastEnd;
    slots, lastEnd := PlaceChunks(Shifted(ranges, ShiftOf(shiftSeconds)), 0.0, TrackLength(duration), 0.0);
  }

  lemma PlacedBounds(slot: Slot, r: Range, lo: real, hi: real, lastEnd: real)
    requires Placed(slot, r, lo, hi, lastEnd) && slot.Shown?
    ensures lo <= slot.start < slot.end <= hi
    ensures lastEnd + EVENT_GAP <= slot.start
  {
  }

  /** The end of the track never moves back, and never beyond the room. */
  lemma {:induction false} EndOfMonotone(slots: seq<Slot>, ranges: seq<Range>, i: nat, n: nat, lo: real, hi: real, floor: real)
    requires i <= n <= |ranges| && Placement(slots, ranges, |ranges|, lo, hi, floor)
    ensures floor <= EndOf(slots, i, floor) <= EndOf(slots, n, floor) <= Max(floor, hi)
  {
    if n > 0 {
      EndOfMonotone(slots, ranges, if i == n then i - 1 else i, n - 1, lo, hi, floor);
      assert PlacedAt(slots, ranges, n - 1, lo, hi, floor);
      if slots[n - 1].Shown? {
        PlacedBounds(slots[n - 1], ranges[n - 1], lo, hi, EndOf(slots, n - 1, floor));
      }
    }
  }

  /** Whatever the ranges were, an event is non-empty, inside its room, and at least a
      gap after everything shown before it. */
  lemma PlacementSpaced(slots: seq<Slot>, ranges: seq<Range>, i: nat, j: nat, lo: real, hi: real, floor: real)
    requires i <= j < |ranges| && Placement(slots, ranges, |ranges|, lo, hi, floor)
    requires slots[i].Shown? && slots[j].Shown?
    ensures lo <= slots[j].start < slots[j].end <= hi
    ensures floor + EVENT_GAP <= slots[j].start
    ensures i < j ==> slots[i].end + EVENT_GAP <= slots[j].start
  {
    assert PlacedAt(slots, ranges, j, lo, hi, floor);
    PlacedBounds(slots[j], ranges[j], lo, hi, EndOf(slots, j, floor));
    EndOfMonotone(slots, ranges, if i < j then i + 1 else j, j, lo, hi, floor);
  }

  /** A range that fits after the events before it is shown as it is. */
  lemma PlacementKeeps(slots: seq<Slot>, ranges: seq<Range>, j: nat, lo: real, hi: real, floor: real)
    requires j < |ranges| && Placement(slots, ranges, |ranges|, lo, hi, floor)
    ensures slots[j] == Shown(ranges[j].start, ranges[j].end) <==>
            && Max(lo, EndOf(slots, j, floor) + EVENT_GAP) <= ranges[j].start < hi
            && (ranges[j].start < ranges[j].end <= hi)
  {
    assert PlacedAt(slots, ranges, j, lo, hi, floor);
  }

  datatype Segment = Segment(duration: real, ranges: seq<Range>)

  /** Where segment number i starts. */
  ghost function SegmentStart(segments: seq<Segment>, i: nat): real
    requires i <= |segments|
  {
    if i == 0 then 0.0 else SegmentStart(segments, i - 1) + TrackLength(segments[i - 1].duration)
  }

  /** The end of the last event in the first n tracks. */
  ghost function TracksEnd(tracks: seq<seq<Slot>>, n: nat): real
    requires n <= |tracks|
  {
    if n == 0 then 0.0 else EndOf(tracks[n - 1], |tracks[n - 1]|, TracksEnd(tracks, n - 1))
  }

  /** The ranges of segment i on the clock of the whole video. */
  ghost function OwnRanges(segments: seq<Segment>, i: nat, shift: real): seq<Range>
    requires i < |segments|
  {
    Shifted(segments[i].ranges, SegmentStart(segments, i) + shift)
  }

  /** Track i is placed in segment i, after everything in the tracks before it. */
  ghost predicate TrackPlaced(track: seq<Slot>, segments: seq<Segment>, i: nat, shift: real, floor: real)
    requires i < |segments|
  {
    && |track| == |segments[i].ranges|
    && Placement(track, OwnRanges(segments, i, shift), |track|, SegmentStart(segments, i), SegmentStart(segments, i + 1), floor)
  }

  ghost predicate TrackPlacedAt(tracks: seq<seq<Slot>>, segments: seq<Segment>, i: nat, shift: real)
    requires i < |tracks| && i < |segments|
  {
    TrackPlaced(tracks[i], segments, i, shift, TracksEnd(tracks, i))
  }

  ghost predicate SegmentedPlacement(tracks: seq<seq<Slot>>, segments: seq<Segment>, shift: real)
  {
    && |tracks| <= |segments|
    && forall i | 0 <= i < |tracks| :: TrackPlacedAt(tracks, segments, i, shift)
  }

  lemma {:induction false} TracksEndPrefix(tracks: seq<seq<Slot>>, more: seq<seq<Slot>>, n: nat)
    requires n <= |tracks|
    ensures TracksEnd(tracks + more, n) == TracksEnd(tracks, n)
  {
    if n > 0 {
      TracksEndPrefix(tracks, more, n - 1);
      assert (tracks + more)[n - 1] == tracks[n - 1];
    }
  }

  lemma ExtendSegments(tracks: seq<seq<Slot>>, track: seq<Slot>, segments: seq<Segment>, shift: real)
    requires |tracks| < |segments| && SegmentedPlacement(tracks, segments, shift)
    requires TrackPlaced(track, segments, |tracks|, shift, TracksEnd(tracks, |tracks|))
    ensures SegmentedPlacement(tracks + [track], segments, shift)
    ensures TracksEnd(tracks + [track], |tracks| + 1) == EndOf(track, |track|, TracksEnd(tracks, |tracks|))
  {
    var all := tracks + [track];
    forall i | 0 <= i < |all|
      ensures TrackPlacedAt(all, segments, i, shift)
    {
      TracksEndPrefix(tracks, [track], i);
      assert i < |tracks| ==> all[i] == tracks[i] && TrackPlacedAt(tracks, segments, i, shift);
    }
    TracksEndPrefix(tracks, [track], |tracks|);
  }

  /** The events of a segmented video: every segment has its own clock. */
  method WriteSegmentedEvents(segments: seq<Segment>, shiftSeconds: real) returns (tracks: seq<seq<Slot>>)
    ensures |tracks| == |segments| && SegmentedPlacement(tracks, segments, ShiftOf(shiftSeconds))
  {
    tracks := [];
    var cursor, lastEnd := 0.0, 0.0;
    for n := 0 to |segments|
      invariant cursor == SegmentStart(segments, n) && lastEnd <= cursor
      invariant |tracks| == n && SegmentedPlacement(tracks, segments, ShiftOf(shiftSeconds))
      invariant lastEnd == TracksEnd(tracks, n)
    {
      var duration := TrackLength(segments[n].duration);
      var shifted := Shifted(segments[n].ranges, cursor + ShiftOf(shiftSeconds));
      var track, last := PlaceChunks(shifted, cursor, cursor + duration, lastEnd);
      EndOfMonotone(track, shifted, 0, |shifted|, cursor, cursor + duration, lastEnd);
      assert TrackPlaced(track, segments, n, ShiftOf(shiftSeconds), lastEnd);
      ExtendSegments(tracks, track, segments, ShiftOf(shiftSeconds));
      tracks := tracks + [track];
      cursor := cursor + duration;
      // The end of the last event never lies beyond its segment, so this cap is idle.
      assert Min(last, cursor) == last;
      lastEnd := Min(last, cursor);
    }
  }

  lemma {:induction false} TracksEndMonotone(tracks: seq<seq<Slot>>, segments: seq<Segment>, shift: real, i: nat, n: nat)
    requires i <= n <= |tracks| && SegmentedPlacement(tracks, segments, shift)
    ensures TracksEnd(tracks, i) <= TracksEnd(tracks, n)
  {
    if i < n {
      TracksEndMonotone(tracks, segments, shift, i, n - 1);
      assert TrackPlacedAt(tracks, segments, n - 1, shift);
      EndOfMonotone(tracks[n - 1], OwnRanges(segments, n - 1, shift), 0, |tracks[n - 1]|,
                    SegmentStart(segments, n - 1), SegmentStart(segments, n), TracksEnd(tracks, n - 1));
    }
  }

  /** Across all segments of any video: an event lies in its own segment, and at least a
      gap after every event of an earlier segment or of an earlier chunk of its own. */
  lemma SegmentedSpaced(tracks: seq<seq<Slot>>, segments: seq<Segment>, shift: real, i: nat, a: nat, j: nat, b: nat)
    requires SegmentedPlacement(tracks, segments, shift)
    requires i <= j < |tracks| && a < |tracks[i]| && b < |tracks[j]| && (i < j || a <= b)
    requires tracks[i][a].Shown? && tracks[j][b].Shown?
    ensures SegmentStart(segments, j) <= tracks[j][b].start < tracks[j][b].end <= SegmentStart(segments, j + 1)
    ensures i < j || a < b ==> tracks[i][a].end + EVENT_GAP <= tracks[j][b].start
  {
    assert TrackPlacedAt(tracks, segments, i, shift);
    assert TrackPlacedAt(tracks, segments, j, shift);
    PlacementSpaced(tracks[j], OwnRanges(segments, j, shift), if i < j then b else a, b,
                    SegmentStart(segments, j), SegmentStart(segments, j + 1), TracksEnd(tracks, j));
    if i < j {
      EndOfMonotone(tracks[i], OwnRanges(segments, i, shift), a + 1, |tracks[i]|,
                    SegmentStart(segments, i), SegmentStart(segments, i + 1), TracksEnd(tracks, i));
      TracksEndMonotone(tracks, segments, shift, i + 1, j);
    }
  }
}
