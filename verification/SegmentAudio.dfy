/** Cutting uploaded voice recordings into one reference for each video segment. */
module SegmentAudio {
  import opened Basics
  import opened Reals

  /** A cut of a recording. */
  datatype Cut = Cut(audio: nat, start: real, duration: real)

  const SHORTEST := 0.1
  const LONGEST := 15.0

  function Sum(xs: seq<real>): real {
    if xs == [] then 0.0 else Sum(xs[..|xs| - 1]) + xs[|xs| - 1]
  }

  lemma {:induction false} SumConcat(xs: seq<real>, ys: seq<real>)
    ensures Sum(xs + ys) == Sum(xs) + Sum(ys)
    ensures |xs| == 1 ==> Sum(xs) == xs[0]
  {
    if ys == [] {
      assert xs + ys == xs;
    } else {
      assert (xs + ys)[..|xs + ys| - 1] == xs + ys[..|ys| - 1];
      SumConcat(xs, ys[..|ys| - 1]);
    }
    if |xs| == 1 {
      assert xs[..0] == [];
    }
  }

  /** Dialogue weights when any segment speaks, with a little for silent ones; otherwise
      the segment durations. */
  function Weights(dialogue: seq<real>, durations: seq<real>): (ws: seq<real>)
    requires |dialogue| == |durations|
    ensures |ws| == |durations|
    ensures (forall i | 0 <= i < |durations| :: durations[i] >= SHORTEST) ==> forall i | 0 <= i < |ws| :: ws[i] > 0.0
  {
    if exists i :: 0 <= i < |dialogue| && dialogue[i] > 0.0
    then seq(|dialogue|, i requires 0 <= i < |dialogue| => if dialogue[i] > 0.0 then dialogue[i] else 0.1)
    else seq(|durations|, i requires 0 <= i < |durations| => Max(durations[i], 0.1))
  }

  /** A speaking segment weighs its dialogue, a silent one a little beside it; without any
      dialogue each segment weighs its duration. */
  lemma WeightsAre(dialogue: seq<real>, durations: seq<real>, i: nat)
    requires i < |dialogue| == |durations|
    ensures dialogue[i] > 0.0 ==> Weights(dialogue, durations)[i] == dialogue[i]
    ensures dialogue[i] <= 0.0 && (exists j :: 0 <= j < |dialogue| && dialogue[j] > 0.0) ==> Weights(dialogue, durations)[i] == 0.1
    ensures (forall j | 0 <= j < |dialogue| :: dialogue[j] <= 0.0) ==> Weights(dialogue, durations)[i] == Max(durations[i], 0.1)
  {
  }

  function CutsEnd(cuts: seq<Cut>): real {
    if cuts == [] then 0.0 else cuts[|cuts| - 1].start + cuts[|cuts| - 1].duration
  }

  // ---- one recording for several segments

  /** Cuts that follow each other from zero, are positive, and end inside the recording. */
  ghost predicate Tiles(cuts: seq<Cut>, duration: real) {
    && (forall i | 0 <= i < |cuts| :: 0.0 <= cuts[i].start && cuts[i].duration >= SHORTEST
                                      && cuts[i].start + cuts[i].duration <= duration)
    && (|cuts| > 0 ==> cuts[0].start == 0.0)
    && forall i | 0 <= i < |cuts| - 1 :: cuts[i].start + cuts[i].duration == cuts[i + 1].start
  }

  /** The parts of a recording that are in proportion to the weights. */
  function Shares(duration: real, weights: seq<real>): seq<real>
  {
    var total := Max(Sum(weights), 0.1);
    seq(|weights|, i requires 0 <= i < |weights| => duration * weights[i] / total)
  }

  /** How long the cut for segment i is when the cuts before it end at cursor: its share of
      the recording, as far as that leaves the shortest cut for every later segment; the
      last segment takes what is left. Segment and reference length are caps. */
  function CutLength(duration: real, share: real, cursor: real, later: nat, segment: real): real {
    var wanted :=
      if later == 0 then Max(duration - cursor, SHORTEST)
      else Min(Max(share, SHORTEST), Max(duration - cursor - SHORTEST * later as real, SHORTEST));
    Min(Min(wanted, segment), LONGEST)
  }

  /** The first n cuts; enough says that the recording has room for the shortest cuts. */
  ghost predicate CutsSoFar(cuts: seq<Cut>, n: nat, duration: real, durations: seq<real>, cursor: real, enough: bool)
    requires n <= |durations|
  {
    && |cuts| == n && cursor >= SHORTEST * n as real
    && (forall j | 0 <= j < n ::
          cuts[j].audio == 0 && cuts[j].start >= 0.0 && SHORTEST <= cuts[j].duration <= Min(durations[j], LONGEST))
    && (forall j | 0 <= j < n - 1 :: cuts[j].start + cuts[j].duration == cuts[j + 1].start)
    && (if n == 0 then cursor == 0.0 else cuts[0].start == 0.0 && cuts[n - 1].start + cuts[n - 1].duration == cursor)
    && (enough ==> cursor + SHORTEST * (|durations| - n) as real <= duration)
    && (enough ==> forall j | 0 <= j < n :: cuts[j].start + cuts[j].duration <= duration)
  }

  lemma OneMoreCut(cuts: seq<Cut>, n: nat, duration: real, durations: seq<real>, cursor: real, enough: bool, share: real)
    requires n < |durations| && durations[n] >= SHORTEST
    requires CutsSoFar(cuts, n, duration, durations, cursor, enough)
    ensures var cut := CutLength(duration, share, cursor, |durations| - n - 1, durations[n]);
            CutsSoFar(cuts + [Cut(0, cursor, cut)], n + 1, duration, durations, cursor + cut, enough)
  {
  }

  /** Cut j has the planned length. */
  ghost predicate Planned(cuts: seq<Cut>, j: nat, duration: real, shares: seq<real>, durations: seq<real>)
    requires j < |cuts| <= |durations| == |shares|
  {
    cuts[j].duration == CutLength(duration, shares[j], cuts[j].start, |durations| - j - 1, durations[j])
  }

  /** Each share is in proportion to its weight. */
  lemma SharesProportional(duration: real, weights: seq<real>, i: nat, j: nat)
    requires i < |weights| && j < |weights|
    ensures Shares(duration, weights)[i] * weights[j] == Shares(duration, weights)[j] * weights[i]
  {
    Proportional(duration, weights[i], weights[j], Max(Sum(weights), SHORTEST), Shares(duration, weights)[i], Shares(duration, weights)[j]);
  }

  lemma Proportional(a: real, x: real, y: real, total: real, p: real, q: real)
    requires total > 0.0 && p == a * x / total && q == a * y / total
    ensures p * y == q * x
  {
    assert p * total == a * x && q * total == a * y;
    assert (p * y) * total == (p * total) * y;
    assert (q * x) * total == (q * total) * x;
    assert (a * x) * y == (a * y) * x;
    SameTimes(p * y, q * x, total);
  }

  lemma SameTimes(a: real, b: real, total: real)
    requires total > 0.0 && a * total == b * total
    ensures a == b
  {
  }

  /** All shares together are the recording. */
  lemma SharesSum(duration: real, weights: seq<real>)
    requires Sum(weights) >= SHORTEST
    ensures Sum(Shares(duration, weights)) == duration
  {
    var shares, total := Shares(duration, weights), Sum(weights);
    forall i | 0 <= i < |weights|
      ensures IsPortion(shares[i], weights[i], duration, total)
    {
      DivideBack(duration * weights[i], total);
    }
    SumScaled(weights, shares, duration, total);
    SameTimes(Sum(shares), duration, total);
  }

  ghost predicate IsPortion(share: real, weight: real, a: real, total: real) {
    share * total == a * weight
  }

  lemma DivideBack(x: real, total: real)
    requires total > 0.0
    ensures x / total * total == x
  {
  }

  lemma {:induction false} SumScaled(weights: seq<real>, shares: seq<real>, a: real, total: real)
    requires |shares| == |weights| && forall i | 0 <= i < |weights| :: IsPortion(shares[i], weights[i], a, total)
    ensures Sum(shares) * total == a * Sum(weights)
  {
    if weights != [] {
      var n := |weights| - 1;
      SumScaled(weights[..n], shares[..n], a, total);
      assert IsPortion(shares[n], weights[n], a, total);
      assert (Sum(shares[..n]) + shares[n]) * total == Sum(shares[..n]) * total + shares[n] * total;
      assert a * (Sum(weights[..n]) + weights[n]) == a * Sum(weights[..n]) + a * weights[n];
    }
  }

  /** Where neither the shortest length nor a cap stands in the way, the planned cut is the
      share; and the last cut goes to the end of the recording. */
  lemma CutIsShare(duration: real, share: real, cursor: real, later: nat, segment: real)
    requires segment >= SHORTEST
    ensures later > 0 && SHORTEST <= share <= segment && share <= LONGEST && cursor + share + SHORTEST * later as real <= duration ==>
              CutLength(duration, share, cursor, later, segment) == share
    ensures later == 0 && SHORTEST <= duration - cursor <= segment && duration - cursor <= LONGEST ==>
              cursor + CutLength(duration, share, cursor, later, segment) == duration
    ensures CutLength(duration, share, cursor, later, segment) <= Min(segment, LONGEST)
  {
  }

  /** Cuts one recording into the given shares. */
  method CutShares(duration: real, shares: seq<real>, durations: seq<real>) returns (cuts: seq<Cut>)
    requires |shares| == |durations| && duration >= 0.0
    requires LongEnough(durations)
    ensures |cuts| == |durations|
    ensures forall i | 0 <= i < |cuts| :: Planned(cuts, i, duration, shares, durations)
    ensures CutsSoFar(cuts, |cuts|, duration, durations, CutsEnd(cuts), duration >= SHORTEST * |durations| as real)
    ensures duration >= SHORTEST * |durations| as real <==> Tiles(cuts, duration)
  {
    var n := |durations|;
    var cursor := 0.0;
    ghost var enough := duration >= SHORTEST * n as real;
    cuts := [];
    for i := 0 to n
      invariant CutsSoFar(cuts, i, duration, durations, cursor, enough)
      invariant forall j | 0 <= j < i :: Planned(cuts, j, duration, shares, durations)
    {
      var cut := CutLength(duration, shares[i], cursor, n - i - 1, durations[i]);
      OneMoreCut(cuts, i, duration, durations, cursor, enough, shares[i]);
      ghost var before := cuts;
      cuts := cuts + [Cut(0, cursor, cut)];
      forall j | 0 <= j < i + 1
        ensures Planned(cuts, j, duration, shares, durations)
      {
        assert j < i ==> Planned(before, j, duration, shares, durations);
      }
      cursor := cursor + cut;
    }
    TilesIffEnough(cuts, duration, durations, cursor);
  }

  /** Cuts in proportion to the dialogue. They follow each other from zero, and they stay
      inside the recording exactly when it is long enough for the shortest cut of every
      segment. */
  ghost predicate DialogueCuts(cuts: seq<Cut>, duration: real, job: Job) {
    && |cuts| == |job.durations| == |job.dialogue|
    && CutsSoFar(cuts, |cuts|, duration, job.durations, CutsEnd(cuts), duration >= SHORTEST * |cuts| as real)
    && (forall i | 0 <= i < |cuts| :: Planned(cuts, i, duration, Shares(duration, Weights(job.dialogue, job.durations)), job.durations))
    && (duration >= SHORTEST * |cuts| as real <==> Tiles(cuts, duration))
  }

  method CutOne(duration: real, job: Job) returns (cuts: seq<Cut>)
    requires IsJob(job) && duration >= 0.0
    ensures DialogueCuts(cuts, duration, job)
  {
    cuts := CutShares(duration, Shares(duration, Weights(job.dialogue, job.durations)), job.durations);
  }

  lemma TilesIffEnough(cuts: seq<Cut>, duration: real, durations: seq<real>, cursor: real)
    requires CutsSoFar(cuts, |durations|, duration, durations, cursor, duration >= SHORTEST * |durations| as real)
    requires duration >= 0.0
    ensures duration >= SHORTEST * |durations| as real <==> Tiles(cuts, duration)
    ensures cursor == CutsEnd(cuts)
  {
    var n := |durations|;
    if n > 0 && duration < SHORTEST * n as real {
      assert cuts[n - 1].start + cuts[n - 1].duration > duration;
    }
  }

  // ---- several recordings

  /** The segments of recording a among m, for n segments: a floor share, but never none. */
  function First(a: nat, m: nat, n: nat): nat
    requires m > 0
  {
    a * n / m
  }

  function End(a: nat, m: nat, n: nat): nat
    requires m > 0
  {
    ShareEnd(First(a, m, n), First(a + 1, m, n), n)
  }

  function ShareEnd(first: nat, next: nat, n: nat): nat {
    if next <= first then (if first + 1 <= n then first + 1 else n) else next
  }

  lemma Times(x: int, y: int, m: nat)
    requires x <= y
    ensures m * x <= m * y
  {
  }

  lemma FloorFacts(x: nat, m: nat)
    requires m > 0
    ensures m * (x / m) <= x < m * (x / m) + m
  {
  }

  /** A quotient of floor shares is below another one when its product is. */
  lemma QuotientOrder(q: nat, r: nat, x: nat, y: nat, m: nat)
    requires m * q <= x && y < m * r + m && x <= y
    ensures q <= r
  {
    if r < q {
      Times(r + 1, q, m);
      assert false;
    }
  }

  lemma FloorMonotone(x: nat, y: nat, m: nat)
    requires m > 0 && x <= y
    ensures x / m <= y / m
  {
    FloorFacts(x, m);
    FloorFacts(y, m);
    QuotientOrder(x / m, y / m, x, y, m);
  }

  lemma FloorOfProduct(n: nat, m: nat)
    requires m > 0
    ensures m * n / m == n
  {
    var x := m * n;
    FloorFacts(x, m);
    QuotientOrder(x / m, n, x, x, m);
    QuotientOrder(n, x / m, x, x, m);
  }

  /** Shares start one after the other, from the first segment to behind the last. */
  lemma FirstMonotone(a: nat, b: nat, m: nat, n: nat)
    requires m > 0 && a <= b
    ensures First(a, m, n) <= First(b, m, n)
    ensures First(0, m, n) == 0 && First(m, m, n) == n
  {
    assert a * n <= b * n;
    FloorMonotone(a * n, b * n, m);
    FloorOfProduct(n, m);
    assert m * n == n * m;
  }

  /** With no more recordings than segments, every recording gets its own segments: the
      shares are not empty, follow each other, and end with the last segment. */
  lemma SharesPartition(a: nat, m: nat, n: nat)
    requires 0 < m <= n && a < m
    ensures First(a, m, n) < First(a + 1, m, n) == End(a, m, n) <= n
    ensures First(0, m, n) == 0 && End(m - 1, m, n) == n
  {
    OneStep(a, m, n);
    OneStep(m - 1, m, n);
    FirstMonotone(a + 1, m, m, n);
  }

  /** The shares are even: sizes differ from the exact quotient by less than one. */
  lemma SharesEven(a: nat, m: nat, n: nat)
    requires 0 < m <= n && a < m
    ensures n - m < m * (End(a, m, n) - First(a, m, n)) < n + m
  {
    SharesPartition(a, m, n);
    FloorFacts(a * n, m);
    FloorFacts((a + 1) * n, m);
    assert (a + 1) * n == a * n + n;
    Spread(m, First(a, m, n), First(a + 1, m, n));
  }

  lemma Spread(m: nat, x: nat, y: nat)
    ensures m * (y - x) == m * y - m * x
  {
  }

  lemma OneStep(a: nat, m: nat, n: nat)
    requires 0 < m <= n
    ensures First(a, m, n) < First(a + 1, m, n)
  {
    var x := a * n;
    assert (a + 1) * n == x + n;
    FloorFacts(x, m);
    FloorFacts(x + n, m);
    var q := x / m;
    assert m * (q + 1) == m * q + m;
    QuotientOrder(q + 1, (x + n) / m, x + m, x + n, m);
  }

  /** With more recordings than segments, a recording gets one segment, and every segment
      gets some recording. */
  lemma SharesCover(m: nat, n: nat, segment: nat) returns (a: nat)
    requires 0 < n < m && segment < n
    ensures a < m && First(a, m, n) == segment && End(a, m, n) == segment + 1
  {
    FirstMonotone(0, m, m, n);
    a := LastBelow(m, n, segment, m);
    FirstMonotone(a, a + 1, m, n);
    AtMostOneStep(a, m, n);
  }

  lemma AtMostOneStep(a: nat, m: nat, n: nat)
    requires 0 < n < m
    ensures First(a + 1, m, n) <= First(a, m, n) + 1
  {
    var x := a * n;
    assert (a + 1) * n == x + n;
    FloorFacts(x, m);
    FloorFacts(x + n, m);
    var q := x / m;
    assert m * (q + 1) == m * q + m;
    QuotientOrder((x + n) / m, q + 1, m * ((x + n) / m), x + n, m);
  }

  /** The last recording below b whose share starts at the segment or before it. */
  lemma {:induction false} LastBelow(m: nat, n: nat, segment: nat, b: nat) returns (a: nat)
    requires 0 < n < m && segment < n && 0 < b <= m && First(b, m, n) > segment
    ensures a < b && First(a, m, n) == segment
    decreases b
  {
    FirstMonotone(0, b, m, n);
    AtMostOneStep(b - 1, m, n);
    if First(b - 1, m, n) == segment {
      a := b - 1;
    } else {
      a := LastBelow(m, n, segment, b - 1);
    }
  }

  /** The weights as lengths of the recording; a recording of unknown length is not scaled. */
  function Scaled(audioDuration: real, weights: seq<real>): seq<real>
  {
    var total := Sum(weights);
    var scale := if audioDuration > 0.0 && total > 0.0 then audioDuration / total else 1.0;
    seq(|weights|, i requires 0 <= i < |weights| => weights[i] * scale)
  }

  /** In proportion to the weights. */
  lemma ScaledProportional(audioDuration: real, weights: seq<real>, i: nat, j: nat)
    requires i < |weights| && j < |weights|
    ensures Scaled(audioDuration, weights)[i] * weights[j] == Scaled(audioDuration, weights)[j] * weights[i]
  {
    var total := Sum(weights);
    var scale := if audioDuration > 0.0 && total > 0.0 then audioDuration / total else 1.0;
    Commutes(weights[i], weights[j], scale, Scaled(audioDuration, weights)[i], Scaled(audioDuration, weights)[j]);
  }

  lemma Commutes(x: real, y: real, scale: real, p: real, q: real)
    requires p == x * scale && q == y * scale
    ensures p * y == q * x
  {
    assert (x * scale) * y == (y * scale) * x;
  }

  /** Together as long as the recording, if its length is known, and otherwise the weights. */
  lemma ScaledSum(audioDuration: real, weights: seq<real>)
    ensures audioDuration > 0.0 && Sum(weights) > 0.0 ==> Sum(Scaled(audioDuration, weights)) == audioDuration
    ensures audioDuration <= 0.0 ==> Scaled(audioDuration, weights) == weights
  {
    var total := Sum(weights);
    if audioDuration > 0.0 && total > 0.0 {
      var scale := audioDuration / total;
      assert scale * total == audioDuration;
      SumTimes(weights, Scaled(audioDuration, weights), scale);
    }
  }

  lemma {:induction false} SumTimes(weights: seq<real>, scaled: seq<real>, scale: real)
    requires |scaled| == |weights| && forall i | 0 <= i < |weights| :: scaled[i] == weights[i] * scale
    ensures Sum(scaled) == Sum(weights) * scale
  {
    if weights != [] {
      var n := |weights| - 1;
      SumTimes(weights[..n], scaled[..n], scale);
      assert (Sum(weights[..n]) + weights[n]) * scale == Sum(weights[..n]) * scale + weights[n] * scale;
    }
  }

  /** A cut of a share is the scaled weight where no cap stands in the way. */
  lemma ShareIsScaled(audioDuration: real, wanted: real, cursor: real, segment: real)
    requires segment >= SHORTEST && SHORTEST <= wanted <= Min(segment, LONGEST)
    requires audioDuration > 0.0 ==> cursor + wanted <= audioDuration
    ensures ShareLength(audioDuration, wanted, cursor, segment) == wanted
  {
  }

  function ShareLength(audioDuration: real, wanted: real, cursor: real, segment: real): (cut: real)
    requires segment >= SHORTEST
    ensures SHORTEST <= cut <= Min(segment, LONGEST)
    ensures audioDuration > 0.0 ==> cursor + cut <= audioDuration || cut == SHORTEST
  {
    var cut := Min(Min(segment, LONGEST), Max(wanted, SHORTEST));
    if audioDuration > 0.0 then Min(cut, Max(audioDuration - cursor, SHORTEST)) else cut
  }

  ghost predicate LongEnough(segments: seq<real>) {
    forall i | 0 <= i < |segments| :: segments[i] >= SHORTEST
  }

  /** The cuts of one recording for the segments of its share, one after the other. */
  ghost function ShareCuts(audio: nat, audioDuration: real, wanted: seq<real>, segments: seq<real>): (cuts: seq<Cut>)
    requires |wanted| == |segments| && LongEnough(segments)
    ensures |cuts| == |wanted|
  {
    if wanted == [] then []
    else
      var n := |wanted| - 1;
      var before := ShareCuts(audio, audioDuration, wanted[..n], segments[..n]);
      before + [Cut(audio, CutsEnd(before), ShareLength(audioDuration, wanted[n], CutsEnd(before), segments[n]))]
  }

  /** The cuts of a share follow each other from zero, respect their segments, and only the
      shortest ones may reach beyond the end of the recording. */
  lemma {:induction false} ShareCutsFollow(audio: nat, audioDuration: real, wanted: seq<real>, segments: seq<real>, j: nat)
    requires |wanted| == |segments| && LongEnough(segments) && j < |wanted|
    ensures var cuts := ShareCuts(audio, audioDuration, wanted, segments);
            && cuts[j].audio == audio
            && cuts[j].start == (if j == 0 then 0.0 else cuts[j - 1].start + cuts[j - 1].duration)
            && cuts[j].start >= 0.0
            && SHORTEST <= cuts[j].duration <= Min(segments[j], LONGEST)
            && (audioDuration > 0.0 ==> cuts[j].start + cuts[j].duration <= audioDuration || cuts[j].duration == SHORTEST)
  {
    var n := |wanted| - 1;
    if j < n {
      ShareCutsFollow(audio, audioDuration, wanted[..n], segments[..n], j);
    } else if n > 0 {
      ShareCutsFollow(audio, audioDuration, wanted[..n], segments[..n], n - 1);
    }
  }

  method CutOneShare(audio: nat, audioDuration: real, wanted: seq<real>, segments: seq<real>) returns (cuts: seq<Cut>)
    requires |wanted| == |segments| && LongEnough(segments)
    ensures cuts == ShareCuts(audio, audioDuration, wanted, segments)
  {
    cuts := [];
    var cursor := 0.0;
    for j := 0 to |wanted|
      invariant cuts == ShareCuts(audio, audioDuration, wanted[..j], segments[..j]) && cursor == CutsEnd(cuts)
    {
      assert wanted[..j + 1][..j] == wanted[..j] && segments[..j + 1][..j] == segments[..j];
      var cut := ShareLength(audioDuration, wanted[j], cursor, segments[j]);
      cuts := cuts + [Cut(audio, cursor, cut)];
      cursor := cursor + cut;
    }
    assert wanted[..|wanted|] == wanted && segments[..|segments|] == segments;
  }

  /** Several recordings, and the dialogue weight and duration of every segment. */
  datatype Job = Job(recordings: seq<real>, dialogue: seq<real>, durations: seq<real>)

  ghost predicate IsJob(job: Job) {
    job.recordings != [] && |job.dialogue| == |job.durations| && LongEnough(job.durations)
  }

  predicate InShare(a: nat, m: nat, n: nat, segment: nat)
    requires m > 0
  {
    First(a, m, n) <= segment < End(a, m, n) && segment < n
  }

  /** The cuts that recording a gets for its share of the segments. */
  ghost function RecordingCuts(job: Job, a: nat): seq<Cut>
    requires IsJob(job) && a < |job.recordings|
  {
    var m, n := |job.recordings|, |job.durations|;
    CutsBetween(job, a, First(a, m, n), if End(a, m, n) <= n then End(a, m, n) else n)
  }

  ghost function CutsBetween(job: Job, a: nat, start: nat, end: nat): (cuts: seq<Cut>)
    requires IsJob(job) && a < |job.recordings| && end <= |job.durations|
    ensures |cuts| == if start < end then end - start else 0
  {
    if start >= end then []
    else
      var length := Max(job.recordings[a], 0.0);
      ShareCuts(a, length, Scaled(length, Weights(job.dialogue[start..end], job.durations[start..end])), job.durations[start..end])
  }

  /** The reference of a segment comes from the last of the first k recordings that has the
      segment in its share. */
  ghost predicate TakenFrom(cut: Cut, segment: nat, job: Job, k: nat)
    requires IsJob(job) && k <= |job.recordings| && segment < |job.durations|
  {
    var m, n, a := |job.recordings|, |job.durations|, cut.audio;
    && a < k && InShare(a, m, n, segment)
    && (forall later | a < later < k :: !InShare(later, m, n, segment))
    && segment - First(a, m, n) < |RecordingCuts(job, a)|
    && cut == RecordingCuts(job, a)[segment - First(a, m, n)]
  }

  /** The references after the first k recordings. */
  ghost predicate Assigned(prepared: seq<Option<Cut>>, job: Job, k: nat)
    requires IsJob(job) && k <= |job.recordings|
  {
    && |prepared| == |job.durations|
    && (forall s | 0 <= s < |prepared| && prepared[s].Some? :: TakenFrom(prepared[s].value, s, job, k))
    && forall s | 0 <= s < |prepared| && s < First(k, |job.recordings|, |job.durations|) :: prepared[s].Some?
  }

  lemma TakenLater(cut: Cut, segment: nat, job: Job, k: nat)
    requires IsJob(job) && k < |job.recordings| && segment < |job.durations| && TakenFrom(cut, segment, job, k)
    requires !InShare(k, |job.recordings|, |job.durations|, segment)
    ensures TakenFrom(cut, segment, job, k + 1)
  {
  }

  lemma TakenNow(segment: nat, job: Job, k: nat, j: nat)
    requires IsJob(job) && k < |job.recordings| && InShare(k, |job.recordings|, |job.durations|, segment)
    requires j == segment - First(k, |job.recordings|, |job.durations|) < |RecordingCuts(job, k)|
    ensures TakenFrom(RecordingCuts(job, k)[j], segment, job, k + 1)
  {
    RecordingCutsOwn(job, k, j);
  }

  /** A recording without a share changes nothing. */
  lemma AssignNothing(prepared: seq<Option<Cut>>, job: Job, k: nat)
    requires IsJob(job) && k < |job.recordings| && Assigned(prepared, job, k)
    requires forall s | 0 <= s < |prepared| :: !InShare(k, |job.recordings|, |job.durations|, s)
    ensures Assigned(prepared, job, k + 1)
  {
    forall s | 0 <= s < |prepared| && prepared[s].Some?
      ensures TakenFrom(prepared[s].value, s, job, k + 1)
    {
      TakenLater(prepared[s].value, s, job, k);
    }
    forall s | 0 <= s < |prepared| && s < First(k + 1, |job.recordings|, |job.durations|)
      ensures prepared[s].Some?
    {
      assert !InShare(k, |job.recordings|, |job.durations|, s);
    }
  }

  /** prepared' is prepared with the cuts of recording k in the places of its share. */
  ghost predicate ShareStored(prepared: seq<Option<Cut>>, job: Job, k: nat, prepared': seq<Option<Cut>>, s: nat)
    requires IsJob(job) && k < |job.recordings| && s < |prepared| == |prepared'|
  {
    var m, n := |job.recordings|, |job.durations|;
    if InShare(k, m, n, s)
    then s - First(k, m, n) < |RecordingCuts(job, k)| && prepared'[s] == Some(RecordingCuts(job, k)[s - First(k, m, n)])
    else prepared'[s] == prepared[s]
  }

  lemma ShareIsStored(prepared: seq<Option<Cut>>, job: Job, k: nat, prepared': seq<Option<Cut>>, start: nat, end: nat)
    requires IsJob(job) && k < |job.recordings| && |prepared| == |prepared'| == |job.durations|
    requires start == First(k, |job.recordings|, |job.durations|)
    requires end == if End(k, |job.recordings|, |job.durations|) <= |prepared|
                    then End(k, |job.recordings|, |job.durations|) else |prepared|
    requires forall s | 0 <= s < |prepared| ::
               prepared'[s] == if start <= s < end then Some(CutsBetween(job, k, start, end)[s - start]) else prepared[s]
    ensures forall s | 0 <= s < |prepared| :: ShareStored(prepared, job, k, prepared', s)
  {
    forall s | 0 <= s < |prepared|
      ensures ShareStored(prepared, job, k, prepared', s)
    {
      assert InShare(k, |job.recordings|, |job.durations|, s) <==> start <= s < end;
    }
  }

  /** A recording's cuts take the places of its share, whatever was there. */
  lemma AssignShare(prepared: seq<Option<Cut>>, job: Job, k: nat, prepared': seq<Option<Cut>>)
    requires IsJob(job) && k < |job.recordings| && Assigned(prepared, job, k) && |prepared'| == |prepared|
    requires forall s | 0 <= s < |prepared| :: ShareStored(prepared, job, k, prepared', s)
    ensures Assigned(prepared', job, k + 1)
  {
    var m, n := |job.recordings|, |job.durations|;
    forall s | 0 <= s < n && prepared'[s].Some?
      ensures TakenFrom(prepared'[s].value, s, job, k + 1)
    {
      assert ShareStored(prepared, job, k, prepared', s);
      if InShare(k, m, n, s) {
        TakenNow(s, job, k, s - First(k, m, n));
      } else {
        TakenLater(prepared[s].value, s, job, k);
      }
    }
    forall s | 0 <= s < n && s < First(k + 1, m, n)
      ensures prepared'[s].Some?
    {
      assert ShareStored(prepared, job, k, prepared', s);
      assert s < First(k, m, n) || InShare(k, m, n, s);
    }
  }

  ghost predicate ValidCut(cut: Cut, recordings: nat) {
    cut.audio < recordings && cut.start >= 0.0 && SHORTEST <= cut.duration <= LONGEST
  }

  lemma CutsBetweenOwn(job: Job, a: nat, start: nat, end: nat, j: nat)
    requires IsJob(job) && a < |job.recordings| && end <= |job.durations| && j < |CutsBetween(job, a, start, end)|
    ensures CutsBetween(job, a, start, end)[j].audio == a
    ensures ValidCut(CutsBetween(job, a, start, end)[j], |job.recordings|)
  {
    var length := Max(job.recordings[a], 0.0);
    ShareCutsFollow(a, length, Scaled(length, Weights(job.dialogue[start..end], job.durations[start..end])), job.durations[start..end], j);
  }

  lemma RecordingCutsOwn(job: Job, a: nat, j: nat)
    requires IsJob(job) && a < |job.recordings| && j < |RecordingCuts(job, a)|
    ensures RecordingCuts(job, a)[j].audio == a && ValidCut(RecordingCuts(job, a)[j], |job.recordings|)
  {
    var m, n := |job.recordings|, |job.durations|;
    CutsBetweenOwn(job, a, First(a, m, n), if End(a, m, n) <= n then End(a, m, n) else n, j);
  }

  /** Stores the cuts of one share. */
  method Put(prepared: seq<Option<Cut>>, cuts: seq<Cut>, start: nat) returns (prepared': seq<Option<Cut>>)
    requires start + |cuts| <= |prepared|
    ensures |prepared'| == |prepared|
    ensures forall s | 0 <= s < |prepared| ::
              prepared'[s] == if start <= s < start + |cuts| then Some(cuts[s - start]) else prepared[s]
  {
    prepared' := prepared;
    for j := 0 to |cuts|
      invariant |prepared'| == |prepared|
      invariant forall s | 0 <= s < |prepared| ::
                  prepared'[s] == if start <= s < start + j then Some(cuts[s - start]) else prepared[s]
    {
      prepared' := prepared'[start + j := Some(cuts[j])];
    }
  }

  lemma TakenIsValid(cut: Cut, segment: nat, job: Job)
    requires IsJob(job) && segment < |job.durations| && TakenFrom(cut, segment, job, |job.recordings|)
    ensures ValidCut(cut, |job.recordings|)
  {
    RecordingCutsOwn(job, cut.audio, segment - First(cut.audio, |job.recordings|, |job.durations|));
  }

  /** Cuts several recordings. Every segment gets a reference from the last recording that
      has it in its share. */
  method CutMany(job: Job) returns (prepared: seq<Option<Cut>>)
    requires IsJob(job)
    ensures |prepared| == |job.durations|
    ensures forall s | 0 <= s < |prepared| :: prepared[s].Some? && TakenFrom(prepared[s].value, s, job, |job.recordings|)
    ensures forall s | 0 <= s < |prepared| :: ValidCut(prepared[s].value, |job.recordings|)
  {
    var m, n := |job.recordings|, |job.durations|;
    prepared := seq(n, _ => None);
    FirstMonotone(0, m, m, n);
    for a := 0 to m
      invariant Assigned(prepared, job, a)
    {
      var start := First(a, m, n);
      var end := if End(a, m, n) <= n then End(a, m, n) else n;
      if start >= end {
        AssignNothing(prepared, job, a);
        continue;
      }
      var weights := Weights(job.dialogue[start..end], job.durations[start..end]);
      var audioDuration := Max(job.recordings[a], 0.0);
      var cuts := CutOneShare(a, audioDuration, Scaled(audioDuration, weights), job.durations[start..end]);
      ghost var before := prepared;
      prepared := Put(prepared, cuts, start);
      ShareIsStored(before, job, a, prepared, start, end);
      AssignShare(before, job, a, prepared);
    }
    forall s | 0 <= s < n
      ensures prepared[s].Some? && ValidCut(prepared[s].value, m)
    {
      TakenIsValid(prepared[s].value, s, job);
    }
  }

  // ---- all cases

  /** What a segment gets: nothing, a whole recording, or a cut of one. */
  datatype Reference = Nothing | Whole(audio: nat) | Piece(cut: Cut)

  function HintAt(hints: seq<real>, i: nat): real {
    if i < |hints| then hints[i] else 0.0
  }

  /** The segments with their durations raised to the shortest cut. */
  function JobOf(recordings: seq<real>, segmentDurations: seq<real>, hints: seq<real>): (job: Job)
    ensures job.recordings == recordings && |job.dialogue| == |job.durations| == |segmentDurations|
    ensures LongEnough(job.durations)
    ensures forall i | 0 <= i < |segmentDurations| ::
              job.durations[i] == Max(segmentDurations[i], SHORTEST) && job.dialogue[i] == (if i < |hints| then hints[i] else 0.0)
  {
    Job(recordings,
        seq(|segmentDurations|, i requires 0 <= i < |segmentDurations| => HintAt(hints, i)),
        seq(|segmentDurations|, i requires 0 <= i < |segmentDurations| => Max(segmentDurations[i], SHORTEST)))
  }

  function Pieces(cuts: seq<Cut>): seq<Reference>
  {
    seq(|cuts|, i requires 0 <= i < |cuts| => Piece(cuts[i]))
  }

  /** One recording is cut by dialogue when it has a length and any hint speaks. */
  ghost predicate ByDialogue(recordings: seq<real>, segments: nat, hints: seq<real>) {
    |recordings| == 1 && segments > 1 && recordings[0] > 0.0 && exists i :: 0 <= i < |hints| && hints[i] > 0.0
  }

  /** The beginning of a recording; one of unknown length is taken to be long. */
  ghost function Beginning(duration: real): Cut {
    Cut(0, 0.0, if duration > 0.0 then Min(LONGEST, Max(duration, SHORTEST)) else LONGEST)
  }

  /** A single recording: the whole of it when it is short and the only segment is; cuts by
      dialogue; or else its beginning for every segment. */
  method PrepareOne(job: Job, hints: seq<real>) returns (prepared: seq<Reference>, ghost cuts: seq<Cut>)
    requires IsJob(job) && |job.recordings| == 1 && job.durations != []
    ensures |prepared| == |job.durations|
    ensures ByDialogue(job.recordings, |prepared|, hints) ==> prepared == Pieces(cuts) && DialogueCuts(cuts, job.recordings[0], job)
    ensures !ByDialogue(job.recordings, |prepared|, hints) ==>
              forall i | 0 <= i < |prepared| ::
                prepared[i] == if |prepared| == 1 && job.recordings[0] <= LONGEST then Whole(0) else Piece(Beginning(job.recordings[0]))
    ensures forall i | 0 <= i < |prepared| && prepared[i].Piece? :: ValidCut(prepared[i].cut, 1)
  {
    cuts := [];
    var n := |job.durations|;
    var duration := Max(job.recordings[0], 0.0);
    if n == 1 && duration <= LONGEST {
      return [Whole(0)], cuts;
    }
    if n > 1 && duration > 0.0 && exists i :: 0 <= i < |hints| && hints[i] > 0.0 {
      var found := CutOne(duration, job);
      assert forall i | 0 <= i < |found| :: ValidCut(found[i], 1);
      return Pieces(found), found;
    }
    var cut := Cut(0, 0.0, Min(LONGEST, if duration > 0.0 then Max(duration, SHORTEST) else LONGEST));
    prepared := seq(n, _ => Piece(cut));
  }

  /** One reference for each segment: nothing without a recording, else from the only one
      or from several. */
  method Prepare(recordings: seq<real>, segmentDurations: seq<real>, hints: seq<real>)
    returns (prepared: seq<Reference>, ghost cuts: seq<Cut>)
    ensures |prepared| == |segmentDurations|
    ensures forall i | 0 <= i < |prepared| :: prepared[i].Nothing? <==> recordings == []
    ensures forall i | 0 <= i < |prepared| && prepared[i].Piece? :: ValidCut(prepared[i].cut, |recordings|)
    ensures ByDialogue(recordings, |prepared|, hints) ==>
              prepared == Pieces(cuts) && DialogueCuts(cuts, recordings[0], JobOf(recordings, segmentDurations, hints))
    ensures |recordings| == 1 && !ByDialogue(recordings, |prepared|, hints) ==>
              forall i | 0 <= i < |prepared| ::
                prepared[i] == if |prepared| == 1 && recordings[0] <= LONGEST then Whole(0) else Piece(Beginning(recordings[0]))
    ensures |recordings| > 1 ==>
              forall i | 0 <= i < |prepared| ::
                prepared[i].Piece? && TakenFrom(prepared[i].cut, i, JobOf(recordings, segmentDurations, hints), |recordings|)
  {
    var job := JobOf(recordings, segmentDurations, hints);
    var n := |job.durations|;
    cuts := [];
    if recordings == [] {
      return seq(n, _ => Nothing), cuts;
    }
    if n == 0 {
      return [], cuts;
    }
    if |recordings| == 1 {
      prepared, cuts := PrepareOne(job, hints);
      return;
    }
    var found := CutMany(job);
    prepared := seq(n, i requires 0 <= i < n => if found[i].Some? then Piece(found[i].value) else Nothing);
  }
}
