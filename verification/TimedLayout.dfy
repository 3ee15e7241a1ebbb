/** Fitting generated speech clips to the time slots of the original: later starts,
    bounded speed-ups, and a shift handed on to the clips after. Times are exact, before
    rounding to milliseconds. */
module TimedLayout {
  import opened Basics
  import opened Reals

  datatype Role = Opening | Source | Ending | Other

  datatype Item = Item(role: Role, start: real, raw: real, slotEnd: Option<real>, complex: bool)

  datatype Clip = Clip(nominal: real, start: real, end: real, raw: real, effective: real, tempo: real)

  const MAX_TEMPO := 1.25
  const MAX_TEMPO_COMPLEX := 1.12
  const TEMPO_SLACK := 0.000001
  const MIN_LENGTH := 0.05
  const TOLERANCE := 0.01

  function TempoCap(item: Item): real {
    if item.complex then MAX_TEMPO_COMPLEX else MAX_TEMPO
  }

  function Nominal(item: Item): real {
    Max(item.start, 0.0)
  }

  function Raw(item: Item): real {
    Max(item.raw, 0.0)
  }

  /** Whether speech of this length can be squeezed into the room within the tempo cap. */
  predicate CanSqueeze(raw: real, room: real, cap: real) {
    room > TOLERANCE && raw / Max(room, MIN_LENGTH) <= cap + TEMPO_SLACK
  }

  /** Effective duration and tempo. */
  datatype Speed = Speed(effective: real, tempo: real)

  function Squeezed(raw: real, room: real): Speed {
    var effective := Max(room, MIN_LENGTH);
    Speed(effective, Max(raw / effective, 1.0))
  }

  /** What is left of the own slot, which is shifted with the clip. */
  function SlotRoom(item: Item, start: real, pending: real): Option<real> {
    if item.slotEnd.None? then None
    else Some(Max(Max(Max(item.slotEnd.value, Nominal(item)) + pending, start) - start, 0.0))
  }

  /** The squeeze into the own slot, when the clip is too long for it. */
  function SlotSpeed(item: Item, start: real, pending: real): Speed {
    var raw, room := Raw(item), SlotRoom(item, start, pending);
    if room.Some? && raw > room.value + TOLERANCE && CanSqueeze(raw, room.value, TempoCap(item))
    then Squeezed(raw, room.value)
    else Speed(raw, 1.0)
  }

  /** What is left before the next source clip. */
  function NextRoom(start: real, next: Option<real>): Option<real> {
    if next.None? then None else Some(Max(next.value - start, 0.0))
  }

  /** The squeeze before the next source clip, when the clip would still overlap it. */
  function NextSpeed(item: Item, start: real, next: Option<real>, before: Speed): Speed {
    var room := NextRoom(start, next);
    if room.Some? && start + before.effective > next.value + TOLERANCE && CanSqueeze(Raw(item), room.value, TempoCap(item))
    then Squeezed(Raw(item), room.value)
    else before
  }

  /** The index of the next source item. */
  function NextSource(items: seq<Item>, i: nat): (r: Option<nat>)
    requires i <= |items|
    ensures r.Some? ==> i <= r.value < |items| && items[r.value].role.Source?
    ensures r.Some? ==> forall j | i <= j < r.value :: !items[j].role.Source?
    ensures r.None? ==> forall j | i <= j < |items| :: !items[j].role.Source?
    decreases |items| - i
  {
    if i == |items| then None
    else if items[i].role.Source? then Some(i)
    else NextSource(items, i + 1)
  }

  /** What the loop carries along. */
  datatype Cursor = Cursor(occupied: real, pending: real, latestSourceEnd: real)

  function NextStart(items: seq<Item>, i: nat, start: real, pending: real): Option<real>
    requires i < |items|
  {
    var next := NextSource(items, i + 1);
    if next.None? then None else Some(Max(items[next.value].start + pending, start))
  }

  function ClipStart(item: Item, c: Cursor): real {
    match item.role
    case Opening => Max(Nominal(item), c.occupied)
    case Source => Max(Nominal(item) + c.pending, c.occupied)
    case Ending => Max(Max(Nominal(item) + c.pending, c.latestSourceEnd), c.occupied)
    case Other => Nominal(item)
  }

  function ClipSpeed(items: seq<Item>, i: nat, c: Cursor): Speed
    requires i < |items|
  {
    var item := items[i];
    if item.role.Source? then
      var start := ClipStart(item, c);
      NextSpeed(item, start, NextStart(items, i, start, c.pending), SlotSpeed(item, start, c.pending))
    else Speed(Raw(item), 1.0)
  }

  function ClipAt(items: seq<Item>, i: nat, c: Cursor): Clip
    requires i < |items|
  {
    var start := ClipStart(items[i], c);
    var speed := ClipSpeed(items, i, c);
    Clip(Nominal(items[i]), start, start + speed.effective, Raw(items[i]), speed.effective, speed.tempo)
  }

  /** The cursor after item i, played for the given time. */
  function CursorNext(items: seq<Item>, i: nat, c: Cursor, effective: real): Cursor
    requires i < |items|
  {
    var start := ClipStart(items[i], c);
    var end := start + effective;
    var next := NextStart(items, i, start, c.pending);
    var source := items[i].role.Source?;
    Cursor(Max(c.occupied, end),
           if source && next.Some? && end > next.value + TOLERANCE then c.pending + (end - next.value) else c.pending,
           if source then Max(c.latestSourceEnd, end) else c.latestSourceEnd)
  }

  function CursorAfter(items: seq<Item>, i: nat, c: Cursor): Cursor
    requires i < |items|
  {
    CursorNext(items, i, c, ClipSpeed(items, i, c).effective)
  }

  /** The cursor before item i. */
  function CursorAt(items: seq<Item>, i: nat): Cursor
    requires i <= |items|
  {
    if i == 0 then Cursor(0.0, 0.0, 0.0) else CursorAfter(items, i - 1, CursorAt(items, i - 1))
  }

  /** The clip made of item i. */
  function LayoutAt(items: seq<Item>, i: nat): Clip
    requires i < |items|
  {
    ClipAt(items, i, CursorAt(items, i))
  }

  /** One round of the loop. */
  method PlaceClip(items: seq<Item>, i: nat, c: Cursor) returns (clip: Clip, c': Cursor)
    requires i < |items|
    ensures clip == ClipAt(items, i, c) && c' == CursorAfter(items, i, c)
  {
    var item := items[i];
    var start := Nominal(item);
    var speed := Speed(Raw(item), 1.0);
    var pending, latestSourceEnd := c.pending, c.latestSourceEnd;
    match item.role {
      case Opening =>
        start := Max(Nominal(item), c.occupied);
      case Source =>
        start := Max(Nominal(item) + pending, c.occupied);
        var next := NextStart(items, i, start, pending);
        speed := NextSpeed(item, start, next, SlotSpeed(item, start, pending));
        var end := start + speed.effective;
        if next.Some? && end > next.value + TOLERANCE {
          pending := pending + (end - next.value);
        }
        latestSourceEnd := Max(latestSourceEnd, end);
      case Ending =>
        start := Max(Max(Nominal(item) + pending, latestSourceEnd), c.occupied);
      case Other =>
    }
    var end := start + speed.effective;
    clip := Clip(Nominal(item), start, end, Raw(item), speed.effective, speed.tempo);
    c' := Cursor(Max(c.occupied, end), pending, latestSourceEnd);
  }

  method BuildLayout(items: seq<Item>, sourceDuration: real) returns (clips: seq<Clip>, total: real)
    ensures |clips| == |items| && forall i | 0 <= i < |items| :: clips[i] == LayoutAt(items, i)
    ensures total >= sourceDuration && total >= 0.1 && forall i | 0 <= i < |clips| :: clips[i].end <= total
    ensures total == sourceDuration || total == 0.1 || exists i | 0 <= i < |clips| :: total == clips[i].end
  {
    clips := [];
    var c := Cursor(0.0, 0.0, 0.0);
    var last := 0.0;
    ghost var latest := 0;
    for i := 0 to |items|
      invariant |clips| == i && c == CursorAt(items, i)
      invariant forall j | 0 <= j < i :: clips[j] == LayoutAt(items, j)
      invariant forall j | 0 <= j < i :: clips[j].end <= last
      invariant i > 0 ==> latest < i && last == clips[latest].end
      invariant i == 0 ==> last == 0.0
    {
      var clip;
      clip, c := PlaceClip(items, i, c);
      assert clip == LayoutAt(items, i) && c == CursorAt(items, i + 1);
      clips := clips + [clip];
      if i == 0 || clip.end > last {
        last, latest := clip.end, i;
      }
    }
    assert |items| > 0 ==> last == clips[latest].end;
    total := Max(Max(sourceDuration, last), 0.1);
  }

  // ---- every list of opening, source and ending clips

  ghost predicate CursorOk(c: Cursor) {
    c.occupied >= 0.0 && c.pending >= 0.0 && c.latestSourceEnd >= 0.0
  }

  ghost predicate Placeable(items: seq<Item>) {
    forall i | 0 <= i < |items| :: !items[i].role.Other?
  }

  lemma DivideBack(raw: real, length: real)
    requires length > 0.0
    ensures raw / length * length == raw
    ensures raw >= length ==> raw / length >= 1.0
    ensures raw < length ==> raw / length < 1.0
  {
  }

  /** A squeeze of speech that does not fit: the tempo stays between one and the cap and
      makes up for the lost time, except that speech shorter than the minimum length is
      given the minimum length. */
  lemma SqueezedWell(raw: real, room: real, cap: real)
    requires CanSqueeze(raw, room, cap) && room < raw && cap >= 1.0
    ensures var s := Squeezed(raw, room);
            && s.effective > 0.0 && 1.0 <= s.tempo <= cap + TEMPO_SLACK
            && (raw >= MIN_LENGTH ==> s.tempo * s.effective == raw && s.effective <= raw)
            && (raw < MIN_LENGTH ==> s.tempo == 1.0 && s.effective == MIN_LENGTH)
  {
    DivideBack(raw, Max(room, MIN_LENGTH));
  }

  ghost predicate SpeedOk(item: Item, s: Speed) {
    && s.effective >= 0.0 && 1.0 <= s.tempo <= (if item.complex then MAX_TEMPO_COMPLEX else MAX_TEMPO) + TEMPO_SLACK
    && (Raw(item) >= MIN_LENGTH ==> s.tempo * s.effective == Raw(item) && s.effective <= Raw(item))
    && (Raw(item) < MIN_LENGTH ==> s.tempo == 1.0 && (s.effective == Raw(item) || s.effective == MIN_LENGTH))
  }

  lemma SlotSpeedOk(item: Item, start: real, pending: real)
    ensures SpeedOk(item, SlotSpeed(item, start, pending))
  {
    var room := SlotRoom(item, start, pending);
    if room.Some? && Raw(item) > room.value + TOLERANCE && CanSqueeze(Raw(item), room.value, TempoCap(item)) {
      SqueezedWell(Raw(item), room.value, TempoCap(item));
    }
  }

  lemma NextSpeedOk(item: Item, start: real, next: Option<real>, before: Speed)
    requires SpeedOk(item, before)
    ensures SpeedOk(item, NextSpeed(item, start, next, before))
  {
    if next.Some? && start + before.effective > next.value + TOLERANCE {
      var room := NextRoom(start, next).value;
      if CanSqueeze(Raw(item), room, TempoCap(item)) {
        NextSqueezedWell(item, room);
      }
    }
  }

  lemma ClipSpeedOk(items: seq<Item>, i: nat, c: Cursor)
    requires i < |items|
    ensures SpeedOk(items[i], ClipSpeed(items, i, c))
  {
    var item, start := items[i], ClipStart(items[i], c);
    if item.role.Source? {
      SlotSpeedOk(item, start, c.pending);
      NextSpeedOk(item, start, NextStart(items, i, start, c.pending), SlotSpeed(item, start, c.pending));
    }
  }

  /** A room that speech below the minimum length is squeezed into. */
  predicate Narrow(raw: real, room: Option<real>) {
    room.Some? && TOLERANCE < room.value < raw - TOLERANCE
  }

  lemma ShortFits(raw: real, room: real, cap: real)
    requires 0.0 <= raw < MIN_LENGTH && cap >= 1.0 && room < MIN_LENGTH
    ensures CanSqueeze(raw, room, cap) <==> room > TOLERANCE
  {
    DivideBack(raw, MIN_LENGTH);
  }

  /** Tempo times duration gives back the speech of a clip, except for exactly the source
      clips below the minimum length that are squeezed into their slot or before the next one. */
  lemma LengthKeptIff(items: seq<Item>, i: nat, c: Cursor)
    requires i < |items|
    ensures var item, start, speed := items[i], ClipStart(items[i], c), ClipSpeed(items, i, c);
            speed.tempo * speed.effective == Raw(item) <==>
            || !item.role.Source? || Raw(item) >= MIN_LENGTH
            || (&& !Narrow(Raw(item), SlotRoom(item, start, c.pending))
                && !Narrow(Raw(item), NextRoom(start, NextStart(items, i, start, c.pending))))
  {
    ClipSpeedOk(items, i, c);
    var item, start := items[i], ClipStart(items[i], c);
    if item.role.Source? && Raw(item) < MIN_LENGTH {
      var raw, cap := Raw(item), TempoCap(item);
      var slot, next := SlotRoom(item, start, c.pending), NextRoom(start, NextStart(items, i, start, c.pending));
      if slot.Some? && slot.value < MIN_LENGTH {
        ShortFits(raw, slot.value, cap);
      }
      if next.Some? && next.value < MIN_LENGTH {
        ShortFits(raw, next.value, cap);
      }
    }
  }

  /** A room that speech of this length can be squeezed into. */
  predicate Suffices(room: real, raw: real, cap: real) {
    room > TOLERANCE && raw <= (cap + TEMPO_SLACK) * Max(room, MIN_LENGTH)
  }

  lemma SufficesIff(raw: real, room: real, cap: real)
    ensures CanSqueeze(raw, room, cap) <==> Suffices(room, raw, cap)
  {
    TempoWithin(raw, Max(room, MIN_LENGTH), cap + TEMPO_SLACK);
  }

  /** A source clip that can be squeezed into its slot or before the next source does not
      run over it, apart from the tolerance and the minimum length. It keeps its length if
      neither has room enough, or both have room for all of it. */
  lemma SqueezedWhenNeeded(items: seq<Item>, i: nat, c: Cursor)
    requires i < |items| && items[i].role.Source?
    ensures var item, start, effective := items[i], ClipStart(items[i], c), ClipSpeed(items, i, c).effective;
            var slot, next := SlotRoom(item, start, c.pending), NextRoom(start, NextStart(items, i, start, c.pending));
            var raw, cap := Raw(item), if item.complex then MAX_TEMPO_COMPLEX else MAX_TEMPO;
            && (slot.Some? && Suffices(slot.value, raw, cap) ==> effective <= Max(slot.value + TOLERANCE, MIN_LENGTH))
            && (next.Some? && Suffices(next.value, raw, cap) ==> effective <= Max(next.value + TOLERANCE, MIN_LENGTH))
            && ((slot.Some? ==> !Suffices(slot.value, raw, cap) || raw <= slot.value + TOLERANCE)
                && (next.Some? ==> !Suffices(next.value, raw, cap) || raw <= next.value + TOLERANCE) ==>
                  effective == raw)
  {
    var item, start := items[i], ClipStart(items[i], c);
    var slot, next := SlotRoom(item, start, c.pending), NextRoom(start, NextStart(items, i, start, c.pending));
    if slot.Some? {
      SufficesIff(Raw(item), slot.value, TempoCap(item));
    }
    if next.Some? {
      SufficesIff(Raw(item), next.value, TempoCap(item));
    }
  }

  /** Speech of 0.04 s in a slot of 0.02 s is given 0.05 s at the normal tempo. */
  lemma ShortSpeechGrows() returns (item: Item)
    ensures Raw(item) == 0.04
    ensures var clip := LayoutAt([item], 0);
            clip.effective == MIN_LENGTH && clip.tempo == 1.0 && clip.tempo * clip.effective != Raw(item)
  {
    item := Item(Source, 0.0, 0.04, Some(0.02), false);
    ShortFits(0.04, 0.02, MAX_TEMPO);
    assert SlotRoom(item, 0.0, 0.0) == Some(0.02);
    assert SlotSpeed(item, 0.0, 0.0) == Squeezed(0.04, 0.02);
  }

  lemma NextSqueezedWell(item: Item, room: real)
    requires CanSqueeze(Raw(item), room, TempoCap(item))
    requires room < Raw(item) || (Raw(item) < MIN_LENGTH && room < MIN_LENGTH)
    ensures SpeedOk(item, Squeezed(Raw(item), room))
  {
    if room < Raw(item) {
      SqueezedWell(Raw(item), room, TempoCap(item));
    } else {
      DivideBack(Raw(item), MIN_LENGTH);
    }
  }

  lemma NextCursorOk(items: seq<Item>, i: nat, c: Cursor)
    requires i < |items| && CursorOk(c)
    ensures CursorOk(CursorAfter(items, i, c)) && c.occupied <= CursorAfter(items, i, c).occupied
    ensures ClipAt(items, i, c).end <= CursorAfter(items, i, c).occupied
  {
    ClipSpeedOk(items, i, c);
  }

  lemma {:induction false} CursorKept(items: seq<Item>, i: nat)
    requires i <= |items|
    ensures CursorOk(CursorAt(items, i))
    ensures i > 0 ==> LayoutAt(items, i - 1).end <= CursorAt(items, i).occupied
    ensures i > 0 ==> CursorAt(items, i - 1).occupied <= CursorAt(items, i).occupied
  {
    if i > 0 {
      CursorKept(items, i - 1);
      NextCursorOk(items, i - 1, CursorAt(items, i - 1));
    }
  }

  /** For any list: no clip starts before its nominal time, its tempo stays within the cap,
      and tempo times duration gives back the speech, down to the minimum length. */
  lemma ClipsSound(items: seq<Item>, i: nat)
    requires i < |items|
    ensures var clip := LayoutAt(items, i);
            && 0.0 <= clip.nominal <= clip.start && clip.end == clip.start + clip.effective
            && SpeedOk(items[i], Speed(clip.effective, clip.tempo))
  {
    var c := CursorAt(items, i);
    CursorKept(items, i);
    ClipSpeedOk(items, i, c);
    assert ClipSpeed(items, i, c) == Speed(LayoutAt(items, i).effective, LayoutAt(items, i).tempo);
  }

  lemma {:induction false} OccupiedGrows(items: seq<Item>, i: nat, j: nat)
    requires i <= j <= |items|
    ensures CursorAt(items, i).occupied <= CursorAt(items, j).occupied
  {
    if i < j {
      CursorKept(items, j);
      OccupiedGrows(items, i, j - 1);
    }
  }

  /** Opening, source and ending clips never overlap and keep their order. */
  lemma ClipsDisjoint(items: seq<Item>, i: nat, j: nat)
    requires Placeable(items) && i < j < |items|
    ensures LayoutAt(items, i).end <= LayoutAt(items, j).start
  {
    CursorKept(items, i + 1);
    OccupiedGrows(items, i + 1, j);
  }

  // ---- where clips start

  /** By how much a source clip runs over the start of the next one, which is shifted itself. */
  ghost function Overrun(items: seq<Item>, i: nat, shift: real): real
    requires i < |items|
  {
    var clip, next := LayoutAt(items, i), NextSource(items, i + 1);
    if !items[i].role.Source? || next.None? then 0.0
    else
      var over := clip.end - Max(items[next.value].start + shift, clip.start);
      if over > TOLERANCE then over else 0.0
  }

  /** All overruns before clip j. */
  ghost function Shift(items: seq<Item>, j: nat): real
    requires j <= |items|
  {
    if j == 0 then 0.0 else Shift(items, j - 1) + Overrun(items, j - 1, Shift(items, j - 1))
  }

  /** When the last of the clips before clip j is over. */
  ghost function LatestEnd(items: seq<Item>, j: nat): real
    requires j <= |items|
  {
    if j == 0 then 0.0 else Max(LatestEnd(items, j - 1), LayoutAt(items, j - 1).end)
  }

  lemma {:induction false} CursorIs(items: seq<Item>, j: nat)
    requires j <= |items|
    ensures CursorAt(items, j).pending == Shift(items, j) && CursorAt(items, j).occupied == LatestEnd(items, j)
    ensures CursorAt(items, j).latestSourceEnd <= LatestEnd(items, j)
  {
    if j > 0 {
      CursorIs(items, j - 1);
    }
  }

  /** A clip starts at its own time, shifted if it is a source or an ending, or when the
      clips before it are over. */
  ghost function StartFor(role: Role, nominal: real, shift: real, latest: real): real {
    if role.Other? then nominal
    else if role.Opening? then Max(nominal, latest)
    else Max(nominal + shift, latest)
  }

  lemma StartIs(item: Item, c: Cursor)
    requires c.latestSourceEnd <= c.occupied
    ensures ClipStart(item, c) == StartFor(item.role, Nominal(item), c.pending, c.occupied)
  {
  }

  /** The shift of a clip is what the sources before it have run over. */
  lemma StartsAre(items: seq<Item>, j: nat)
    requires j < |items|
    ensures LayoutAt(items, j).start == StartFor(items[j].role, Nominal(items[j]), Shift(items, j), LatestEnd(items, j))
  {
    var c := CursorAt(items, j);
    CursorIs(items, j);
    StartIs(items[j], c);
    LayoutIs(items, j, c);
  }

  lemma LayoutIs(items: seq<Item>, j: nat, c: Cursor)
    requires j < |items| && c == CursorAt(items, j)
    ensures LayoutAt(items, j).start == ClipStart(items[j], c)
  {
  }

  lemma {:induction false} ShiftGrows(items: seq<Item>, i: nat, j: nat)
    requires i <= j <= |items|
    ensures Shift(items, i) <= Shift(items, j)
  {
    if i < j {
      ShiftGrows(items, i, j - 1);
    }
  }

  /** The first clips are sources in the order of their starts. */
  ghost predicate SourcesFirst(items: seq<Item>, n: nat) {
    && n <= |items| && (forall i | 0 <= i < n :: items[i].role.Source?)
    && forall i | 0 <= i < n - 1 :: items[i].start <= items[i + 1].start
  }

  /** A clip is late by no more than the overruns before it, and the tolerance for each. */
  lemma {:induction false} LatenessShifted(items: seq<Item>, i: nat)
    requires SourcesFirst(items, i + 1)
    ensures LayoutAt(items, i).start - Nominal(items[i]) <= Shift(items, i) + i as real * TOLERANCE
  {
    StartsAre(items, i);
    if i > 0 {
      LatenessShifted(items, i - 1);
      StartsAre(items, i - 1);
      CursorKept(items, i);
      assert items[i - 1].start <= items[i].start;
      assert i as real * TOLERANCE == (i - 1) as real * TOLERANCE + TOLERANCE;
    }
  }

  /** A later source or ending keeps the lateness that an earlier overrun brought about, up
      to the tolerance for each clip. */
  lemma ShiftKept(items: seq<Item>, i: nat, j: nat)
    requires SourcesFirst(items, i + 2) && i < j < |items| && (items[j].role.Source? || items[j].role.Ending?)
    ensures LayoutAt(items, j).start - Nominal(items[j])
         >= LayoutAt(items, i).end - Nominal(items[i + 1]) - (i + 1) as real * TOLERANCE
  {
    LatenessShifted(items, i + 1);
    StartsAfter(items, i);
    ShiftGrows(items, i + 1, j);
    NeverBefore(items, j);
  }

  lemma NeverBefore(items: seq<Item>, j: nat)
    requires j < |items| && (items[j].role.Source? || items[j].role.Ending?)
    ensures LayoutAt(items, j).start >= Nominal(items[j]) + Shift(items, j)
  {
    StartsAre(items, j);
  }

  lemma StartsAfter(items: seq<Item>, i: nat)
    requires SourcesFirst(items, i + 2)
    ensures LayoutAt(items, i + 1).start >= LayoutAt(items, i).end
  {
    StartsAre(items, i + 1);
  }

  // ---- source-only lists

  ghost predicate OrderedSources(items: seq<Item>) {
    && (forall i | 0 <= i < |items| :: items[i].role.Source?)
    && forall i | 0 <= i < |items| - 1 :: items[i].start <= items[i + 1].start
  }

  /** The speech before item i, as played. */
  ghost function PlayedBefore(items: seq<Item>, i: nat): real
    requires i <= |items|
  {
    if i == 0 then 0.0 else PlayedBefore(items, i - 1) + LayoutAt(items, i - 1).effective
  }

  lemma NextIsNext(items: seq<Item>, i: nat)
    requires OrderedSources(items) && i < |items|
    ensures NextSource(items, i + 1) == if i + 1 < |items| then Some(i + 1) else None
  {
  }

  /** One source clip adds at most its own length to what later clips can be late by. */
  lemma NextBudget(items: seq<Item>, i: nat, c: Cursor, effective: real, budget: real)
    requires OrderedSources(items) && i < |items| && effective >= 0.0
    requires 0.0 <= c.pending <= budget && c.occupied <= Nominal(items[i]) + budget
    ensures CursorNext(items, i, c, effective).pending <= budget + effective
    ensures i + 1 < |items| ==> CursorNext(items, i, c, effective).occupied <= Nominal(items[i + 1]) + budget + effective
  {
    NextIsNext(items, i);
    if i + 1 < |items| {
      assert items[i].start <= items[i + 1].start;
    }
  }

  lemma {:induction false} ShiftBudget(items: seq<Item>, i: nat)
    requires OrderedSources(items) && i <= |items|
    ensures CursorAt(items, i).pending <= PlayedBefore(items, i)
    ensures i < |items| ==> CursorAt(items, i).occupied <= Nominal(items[i]) + PlayedBefore(items, i)
  {
    if i > 0 {
      var c := CursorAt(items, i - 1);
      ShiftBudget(items, i - 1);
      CursorKept(items, i - 1);
      ClipSpeedOk(items, i - 1, c);
      NextBudget(items, i - 1, c, ClipSpeed(items, i - 1, c).effective, PlayedBefore(items, i - 1));
    }
  }

  /** A source clip is never early, and late by no more than the speech played before it. */
  lemma ShiftBounded(items: seq<Item>, i: nat)
    requires OrderedSources(items) && i < |items|
    ensures 0.0 <= LayoutAt(items, i).start - LayoutAt(items, i).nominal <= PlayedBefore(items, i)
  {
    ShiftBudget(items, i);
    CursorKept(items, i);
  }

  /** Speech that is not squeezed into a slot with this room: it fits, or the room is too
      narrow for the tempo cap, or the squeeze gives it the length it has. */
  predicate Unsqueezed(raw: real, room: Option<real>, cap: real) {
    || room.None? || raw <= room.value + TOLERANCE
    || room.value <= TOLERANCE || raw > (cap + TEMPO_SLACK) * Max(room.value, MIN_LENGTH)
    || raw == MIN_LENGTH
  }

  /** Nothing about this clip has to change: it ends before the next nominal start and is
      not squeezed into its own slot. */
  ghost predicate Fits(items: seq<Item>, i: nat)
    requires i < |items|
  {
    var item, nominal := items[i], Nominal(items[i]);
    && (i + 1 < |items| ==> nominal + Raw(item) <= Nominal(items[i + 1]))
    && Unsqueezed(Raw(item), SlotRoom(item, nominal, 0.0), TempoCap(item))
  }

  lemma UnsqueezedIff(item: Item, start: real, pending: real)
    ensures SlotSpeed(item, start, pending).effective == Raw(item)
       <==> Unsqueezed(Raw(item), SlotRoom(item, start, pending), TempoCap(item))
  {
    var room := SlotRoom(item, start, pending);
    if room.Some? {
      TempoWithin(Raw(item), Max(room.value, MIN_LENGTH), TempoCap(item) + TEMPO_SLACK);
    }
  }

  lemma TempoWithin(raw: real, length: real, cap: real)
    requires length > 0.0
    ensures raw / length <= cap <==> raw <= cap * length
  {
    var tempo := raw / length;
    assert tempo * length == raw;
    if tempo <= cap {
      assert (cap - tempo) * length >= 0.0;
    } else {
      assert (tempo - cap) * length > 0.0;
    }
  }

  ghost predicate Untouched(items: seq<Item>, i: nat)
    requires i < |items|
  {
    LayoutAt(items, i).start == Nominal(items[i]) && LayoutAt(items, i).effective == Raw(items[i])
  }

  /** A fitting clip keeps the cursor where it need not shift anything. */
  lemma FittingStep(items: seq<Item>, i: nat, c: Cursor)
    requires OrderedSources(items) && i < |items| && Fits(items, i)
    requires c.pending == 0.0 && 0.0 <= c.occupied <= Nominal(items[i])
    ensures ClipStart(items[i], c) == Nominal(items[i]) && ClipSpeed(items, i, c).effective == Raw(items[i])
    ensures CursorAfter(items, i, c).pending == 0.0
    ensures i + 1 < |items| ==> CursorAfter(items, i, c).occupied <= Nominal(items[i + 1])
  {
    NextIsNext(items, i);
    UnsqueezedIff(items[i], Nominal(items[i]), 0.0);
  }

  lemma {:induction false} FittingCursor(items: seq<Item>, i: nat)
    requires OrderedSources(items) && i <= |items|
    requires forall j | 0 <= j < i :: Fits(items, j)
    ensures CursorAt(items, i).pending == 0.0
    ensures i < |items| ==> CursorAt(items, i).occupied <= Nominal(items[i])
    ensures forall j | 0 <= j < i :: Untouched(items, j)
  {
    if i > 0 {
      FittingCursor(items, i - 1);
      CursorKept(items, i - 1);
      FittingStep(items, i - 1, CursorAt(items, i - 1));
    }
  }

  /** For ordered sources, the layout changes nothing if and only if every clip fits. */
  lemma IdentityIff(items: seq<Item>)
    requires OrderedSources(items)
    ensures (forall i | 0 <= i < |items| :: Untouched(items, i)) <==> (forall i | 0 <= i < |items| :: Fits(items, i))
  {
    if forall i | 0 <= i < |items| :: Fits(items, i) {
      FittingCursor(items, |items|);
    }
    if forall i | 0 <= i < |items| :: Untouched(items, i) {
      UntouchedFits(items, |items|);
    }
  }

  lemma {:induction false} UntouchedFits(items: seq<Item>, i: nat)
    requires OrderedSources(items) && i <= |items|
    requires forall j | 0 <= j < |items| :: Untouched(items, j)
    ensures forall j | 0 <= j < i :: Fits(items, j)
  {
    if i > 0 {
      UntouchedFits(items, i - 1);
      FittingCursor(items, i - 1);
      UntouchedOne(items, i - 1);
    }
  }

  lemma UntouchedOne(items: seq<Item>, i: nat)
    requires OrderedSources(items) && i < |items| && CursorAt(items, i).pending == 0.0
    requires forall j | 0 <= j < |items| :: Untouched(items, j)
    ensures Fits(items, i)
  {
    assert Untouched(items, i);
    if i + 1 < |items| {
      assert Untouched(items, i + 1);
      ClipsDisjoint(items, i, i + 1);
      LastEndsBefore(items, i);
    }
    LayoutIs(items, i, CursorAt(items, i));
    UntouchedSlot(items, i, CursorAt(items, i));
  }

  lemma LastEndsBefore(items: seq<Item>, i: nat)
    requires i + 1 < |items| && Untouched(items, i) && Untouched(items, i + 1)
    requires LayoutAt(items, i).end <= LayoutAt(items, i + 1).start
    ensures Nominal(items[i]) + Raw(items[i]) <= Nominal(items[i + 1])
  {
  }

  /** A clip that ends before the next one keeps the speed of its slot. */
  lemma UntouchedSlot(items: seq<Item>, i: nat, c: Cursor)
    requires OrderedSources(items) && i < |items|
    requires c.pending == 0.0 && ClipStart(items[i], c) == Nominal(items[i])
    requires ClipSpeed(items, i, c).effective == Raw(items[i])
    requires i + 1 < |items| ==> Nominal(items[i]) + Raw(items[i]) <= Nominal(items[i + 1])
    ensures Unsqueezed(Raw(items[i]), SlotRoom(items[i], Nominal(items[i]), 0.0), TempoCap(items[i]))
  {
    NextIsNext(items, i);
    var item := items[i];
    SlotSpeedOk(item, Nominal(item), 0.0);
    UnsqueezedIff(item, Nominal(item), 0.0);
  }

  // ---- tempo filters

  ghost function Product(parts: seq<real>): real {
    if parts == [] then 1.0 else Product(parts[..|parts| - 1]) * parts[|parts| - 1]
  }

  ghost predicate AllAre(parts: seq<real>, factor: real) {
    forall i | 0 <= i < |parts| :: parts[i] == factor
  }

  lemma ProductOf(parts: seq<real>, last: real)
    ensures Product(parts + [last]) == Product(parts) * last
  {
    assert (parts + [last])[..|parts|] == parts;
  }

  lemma Regroup(p: real, factor: real, value: real)
    requires factor > 0.0
    ensures (p * factor) * (value / factor) == p * value
  {
    var q := value / factor;
    assert q * factor == value;
    assert (p * factor) * q == p * (q * factor);
  }

  /** Taking out a factor keeps the product. */
  lemma PullFactor(parts: seq<real>, factor: real, value: real)
    requires factor > 0.0
    ensures Product(parts + [factor] + [value / factor]) == Product(parts + [value])
  {
    ProductOf(parts, value);
    ProductOf(parts, factor);
    ProductOf(parts + [factor], value / factor);
    Regroup(Product(parts), factor, value);
  }

  lemma ProductOfOne(value: real)
    ensures Product([] + [value]) == value
  {
    ProductOf([], value);
  }

  /** Pulls out twos while the value is too large for one filter. */
  method PullTwos(tempo: real) returns (parts: seq<real>, value: real)
    requires tempo > 0.0
    ensures Product(parts + [value]) == tempo && AllAre(parts, 2.0)
    ensures value <= 2.0 && (parts == [] ==> value == tempo) && (parts != [] ==> value > 1.0)
  {
    parts, value := [], tempo;
    ProductOfOne(tempo);
    while value > 2.0
      invariant Product(parts + [value]) == tempo && AllAre(parts, 2.0) && value > 0.0
      invariant (parts == [] ==> value == tempo) && (parts != [] ==> value > 1.0)
      decreases value
    {
      PullFactor(parts, 2.0, value);
      parts, value := parts + [2.0], value / 2.0;
    }
  }

  /** Pulls out halves while the value is too small for one filter. */
  method PullHalves(tempo: real) returns (parts: seq<real>, value: real)
    requires MIN_LENGTH <= tempo <= 2.0
    ensures Product(parts + [value]) == tempo && AllAre(parts, 0.5)
    ensures 0.5 <= value <= 2.0 && (parts == [] ==> value == tempo) && (parts != [] ==> value < 1.0)
  {
    parts, value := [], tempo;
    ProductOfOne(tempo);
    while value < 0.5
      invariant Product(parts + [value]) == tempo && AllAre(parts, 0.5) && MIN_LENGTH <= value <= 2.0
      invariant (parts == [] ==> value == tempo) && (parts != [] ==> value < 1.0)
      decreases (1.0 - value) * 20.0
    {
      PullFactor(parts, 0.5, value);
      parts, value := parts + [0.5], value / 0.5;
    }
  }

  /** All factors but the last one are the largest, and it is a speed-up as well; or they are
      the smallest, and it slows down as well. */
  ghost predicate Fewest(parts: seq<real>) {
    parts != [] &&
    var rest, last := parts[..|parts| - 1], parts[|parts| - 1];
    rest == [] || (AllAre(rest, 2.0) && last > 1.0) || (AllAre(rest, 0.5) && last < 1.0)
  }

  /** Splits a tempo into factors a single filter accepts, with the tempo as their product;
      zero stands for the normal tempo and very small ones are raised. */
  method AtempoChain(tempo: real) returns (parts: seq<real>)
    ensures Product(parts) == Max(if tempo == 0.0 then 1.0 else tempo, MIN_LENGTH)
    ensures parts != [] && forall i | 0 <= i < |parts| :: 0.5 <= parts[i] <= 2.0
    ensures Fewest(parts)
  {
    var value := Max(if tempo == 0.0 then 1.0 else tempo, MIN_LENGTH);
    var rest;
    parts, rest := PullTwos(value);
    if rest < 0.5 {
      // No two was pulled out, so the halves are the whole chain.
      parts, rest := PullHalves(rest);
    }
    ghost var pulled := parts;
    parts := parts + [rest];
    assert parts[..|parts| - 1] == pulled;
  }
}
