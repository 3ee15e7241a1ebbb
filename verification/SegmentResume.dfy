/** Segment runs that end in any way and anywhere, and are resumed from what they left. A
    restart goes on with the same task, its row and its directory; a resume by the user is a
    new task, whose row starts empty. */
module SegmentResume {
  import opened SegmentRun

  /** The row of a task, with the checkpoint in it. */
  datatype Row = Row(task: nat, checkpoint: Checkpoint)

  /** How an attempt ends. Its result replaces what is in the row, unless it raises, the
      server dies first, or the user has cancelled the task. In the last case its worker
      discards the result and the whole directory of the task. A resume that begins before
      the worker does so finds the attempt interrupted. */
  datatype Ending = Returned | Raised | Interrupted | Cancelled

  /** One attempt without a segment to regenerate, with the files before and after its run. */
  datatype Attempt = Attempt(task: nat, disk: Disk, provider: Provider, stop: nat, ending: Ending,
                             segments: map<nat, Segment>, disk': Disk, calls: seq<nat>)

  const EMPTY := Checkpoint([], [], map[])

  /** What the attempt finds in the row it resumes from. */
  ghost function Found(row: Row, a: Attempt, count: nat): map<nat, Restored> {
    Decode(row.checkpoint, count, a.disk)
  }

  ghost function TargetsOf(row: Row, a: Attempt, count: nat): seq<nat> {
    Targets(Found(row, a, count), count, 0)
  }

  /** The targets the attempt gets done. */
  ghost function TriedBy(row: Row, a: Attempt, count: nat): seq<nat> {
    Tried(Found(row, a, count), count, 0, a.stop, a.provider)
  }

  ghost predicate Generates(row: Row, a: Attempt, count: nat, i: nat) {
    i in TriedBy(row, a, count) && a.provider(i).Generated?
  }

  /** The records its own row starts with. */
  ghost function RecordsBefore(row: Row, a: Attempt): seq<Record> {
    if a.task == row.task then row.checkpoint.records else []
  }

  /** What the attempt leaves in its own row. */
  ghost function CheckpointAfter(row: Row, a: Attempt, count: nat): Checkpoint {
    if a.ending.Returned? then Encode(a.task, a.segments, a.disk', count)
    else Checkpoint(Recorded(a.task, RecordsBefore(row, a), Found(row, a, count), count, 0, a.stop, a.provider), [], map[])
  }

  /** An attempt from one row to its own. */
  ghost predicate Leads(row: Row, a: Attempt, row': Row, count: nat) {
    && RunResult(Found(row, a, count), 0, TriedBy(row, a, count), a.provider, a.segments)
    && FilesThere(a.task, a.segments, a.disk, a.disk')
    && a.calls == Called(TargetsOf(row, a, count), a.stop, a.provider)
    && (a.ending.Returned? ==> Returns(TargetsOf(row, a, count), a.stop, a.provider))
    && row' == Row(a.task, CheckpointAfter(row, a, count))
  }

  /** The next attempt finds the directory of the task as the attempt left it. */
  ghost predicate Follows(a: Attempt, next: Attempt) {
    forall i :: File(a.task, i) in next.disk <==> !a.ending.Cancelled? && File(a.task, i) in a.disk'
  }

  // ---- what a row holds

  ghost predicate RecordsOf(task: nat, records: seq<Record>, m: map<nat, Segment>) {
    && (forall x | x in records :: x.index >= 1 && x.index in m && x == RecordOf(task, x.index, m[x.index]))
    && forall i | i in m :: RecordOf(task, i, m[i]) in records
  }

  /** The row has records of these segments, and of nothing else. Their files may be gone. */
  ghost predicate Holds(row: Row, m: map<nat, Segment>, count: nat) {
    && Healthy(m) && (forall i | i in m :: 1 <= i <= count)
    && RecordsOf(row.task, row.checkpoint.records, m)
    && forall k | 0 <= k < |row.checkpoint.paths| && row.checkpoint.paths[k].Some? ::
         k + 1 in m && row.checkpoint.paths[k].value == File(row.task, k + 1)
  }

  lemma RecordDecodes(task: nat, records: seq<Record>, m: map<nat, Segment>, count: nat, disk: Disk, i: nat)
    requires RecordsOf(task, records, m) && Healthy(m) && forall j | j in m :: 1 <= j <= count
    ensures i in FromRecords(records, count, disk) <==> i in m && File(task, i) in disk
    ensures i in FromRecords(records, count, disk) ==>
              FromRecords(records, count, disk)[i] == Restored(File(task, i), m[i].ids, m[i].duration)
  {
    var k := LastRecordWins(records, count, disk, i);
    if i in FromRecords(records, count, disk) {
      assert records[k] in records;
      RecordIds(task, i, m[i]);
    }
    if i in m && File(task, i) in disk {
      var j :| 0 <= j < |records| && records[j] == RecordOf(task, i, m[i]);
      assert Gives(records, j, i, count, disk);
    }
  }

  /** A resumed run finds exactly the recorded segments whose files are there. */
  lemma HoldsDecode(row: Row, m: map<nat, Segment>, count: nat, disk: Disk)
    requires Holds(row, m, count)
    ensures Decode(row.checkpoint, count, disk) == Finished(row.task, m, disk, count)
  {
    var c := row.checkpoint;
    forall i: nat
      ensures i in FromRecords(c.records, count, disk) <==> i in m && File(row.task, i) in disk
      ensures i in FromRecords(c.records, count, disk) ==>
                FromRecords(c.records, count, disk)[i] == Restored(File(row.task, i), m[i].ids, m[i].duration)
    {
      RecordDecodes(row.task, c.records, m, count, disk, i);
    }
    assert FromRecords(c.records, count, disk) == Finished(row.task, m, disk, count);
    PathsAddNothing(Finished(row.task, m, disk, count), c, count, disk, 0);
  }

  lemma {:induction false} RecordsMembers(task: nat, segments: map<nat, Segment>, disk: Disk, n: nat, x: Record)
    ensures x in Records(task, segments, disk, n) <==>
            && 1 <= x.index <= n && x.index in segments && File(task, x.index) in disk
            && x == RecordOf(task, x.index, segments[x.index])
  {
    if n > 0 {
      RecordsMembers(task, segments, disk, n - 1, x);
    }
  }

  lemma EncodeRecords(task: nat, segments: map<nat, Segment>, disk: Disk, count: nat)
    requires forall i | i in segments :: 1 <= i <= count && File(task, i) in disk
    ensures RecordsOf(task, Records(task, segments, disk, count), segments)
  {
    forall x | x in Records(task, segments, disk, count)
      ensures x.index >= 1 && x.index in segments && x == RecordOf(task, x.index, segments[x.index])
    {
      RecordsMembers(task, segments, disk, count, x);
    }
    forall i | i in segments
      ensures RecordOf(task, i, segments[i]) in Records(task, segments, disk, count)
    {
      RecordsMembers(task, segments, disk, count, RecordOf(task, i, segments[i]));
    }
  }

  lemma EncodeHolds(task: nat, segments: map<nat, Segment>, disk: Disk, count: nat)
    requires Healthy(segments) && forall i | i in segments :: 1 <= i <= count && File(task, i) in disk
    ensures Holds(Row(task, Encode(task, segments, disk, count)), segments, count)
  {
    EncodeRecords(task, segments, disk, count);
  }

  lemma MergeHolds(task: nat, records: seq<Record>, m: map<nat, Segment>, i: nat, s: Segment)
    requires RecordsOf(task, records, m) && i >= 1
    ensures RecordsOf(task, Merge(records, RecordOf(task, i, s)), m[i := s])
  {
    var x, m' := RecordOf(task, i, s), m[i := s];
    forall y | y in Merge(records, x)
      ensures y.index >= 1 && y.index in m' && y == RecordOf(task, y.index, m'[y.index])
    {
      MergeMembers(records, x, y);
    }
    forall j | j in m'
      ensures RecordOf(task, j, m'[j]) in Merge(records, x)
    {
      MergeMembers(records, x, RecordOf(task, j, m'[j]));
    }
  }

  /** The segments with those that the provider made of the first k targets. */
  ghost function With(m: map<nat, Segment>, targets: seq<nat>, provider: Provider, k: nat): map<nat, Segment>
    requires k <= |targets|
  {
    if k == 0 then m
    else
      var before, i := With(m, targets, provider, k - 1), targets[k - 1];
      if provider(i).Generated? then before[i := Made(provider(i))] else before
  }

  lemma {:induction false} WithMembers(m: map<nat, Segment>, targets: seq<nat>, provider: Provider, k: nat)
    requires k <= |targets|
    ensures forall i :: i in With(m, targets, provider, k) <==> i in m || (i in targets[..k] && provider(i).Generated?)
    ensures forall i | i in With(m, targets, provider, k) ::
              With(m, targets, provider, k)[i] ==
              if i in targets[..k] && provider(i).Generated? then Made(provider(i)) else m[i]
  {
    if k > 0 {
      WithMembers(m, targets, provider, k - 1);
      MoreTried(targets, k - 1);
    }
  }

  lemma {:induction false} ProgressHolds(task: nat, records: seq<Record>, m: map<nat, Segment>, targets: seq<nat>,
                                         provider: Provider, k: nat)
    requires RecordsOf(task, records, m) && k <= |targets| && forall i | i in targets :: i >= 1
    ensures RecordsOf(task, Progress(task, records, targets, provider, k), With(m, targets, provider, k))
  {
    if k > 0 {
      var i := targets[k - 1];
      assert i in targets;
      ProgressHolds(task, records, m, targets, provider, k - 1);
      if provider(i).Generated? {
        MergeHolds(task, Progress(task, records, targets, provider, k - 1), With(m, targets, provider, k - 1), i, Made(provider(i)));
      }
    }
  }

  // ---- one attempt

  /** The segments recorded in the row of an attempt that does not return. */
  ghost function Merged(row: Row, m: map<nat, Segment>, a: Attempt, count: nat): map<nat, Segment> {
    var targets := TargetsOf(row, a, count);
    With(if a.task == row.task then m else map[], targets, a.provider, Done(targets, a.stop, a.provider))
  }

  lemma MergedMembers(row: Row, m: map<nat, Segment>, a: Attempt, count: nat)
    ensures var merged, before := Merged(row, m, a, count), if a.task == row.task then m else map[];
            && (forall i :: i in merged <==> i in before || Generates(row, a, count, i))
            && forall i | i in merged :: merged[i] == if Generates(row, a, count, i) then Made(a.provider(i)) else before[i]
  {
    var targets := TargetsOf(row, a, count);
    WithMembers(if a.task == row.task then m else map[], targets, a.provider, Done(targets, a.stop, a.provider));
  }

  lemma MergedHolds(row: Row, m: map<nat, Segment>, a: Attempt, row': Row, count: nat)
    requires Holds(row, m, count) && Leads(row, a, row', count) && !a.ending.Returned?
    ensures Holds(row', Merged(row, m, a, count), count)
  {
    var targets, merged := TargetsOf(row, a, count), Merged(row, m, a, count);
    MergedMembers(row, m, a, count);
    ProgressHolds(a.task, RecordsBefore(row, a), if a.task == row.task then m else map[], targets, a.provider,
                  Done(targets, a.stop, a.provider));
    forall i | i in merged
      ensures 1 <= i <= count && Clean(merged[i].ids) && merged[i].duration >= 0.0
    {
      assert Generates(row, a, count, i) ==> i in targets;
    }
  }

  lemma SegmentsHealthy(row: Row, m: map<nat, Segment>, a: Attempt, row': Row, count: nat)
    requires Holds(row, m, count) && Leads(row, a, row', count)
    ensures Healthy(a.segments) && forall i | i in a.segments :: 1 <= i <= count
  {
    HoldsDecode(row, m, count, a.disk);
    var found := Found(row, a, count);
    forall i | i in a.segments
      ensures 1 <= i <= count && Clean(a.segments[i].ids) && a.segments[i].duration >= 0.0
    {
      assert i in TriedBy(row, a, count) ==> i in TargetsOf(row, a, count);
      assert i !in TriedBy(row, a, count) ==> i in found && a.segments[i] == SegmentOf(found[i]);
    }
  }

  ghost predicate Sound(row: Row, count: nat) {
    exists m :: Holds(row, m, count)
  }

  lemma SoundAfter(row: Row, a: Attempt, row': Row, count: nat)
    requires Sound(row, count) && Leads(row, a, row', count)
    ensures Sound(row', count)
  {
    var m :| Holds(row, m, count);
    if a.ending.Returned? {
      SegmentsHealthy(row, m, a, row', count);
      EncodeHolds(a.task, a.segments, a.disk', count);
    } else {
      MergedHolds(row, m, a, row', count);
    }
  }

  /** An attempt wants exactly the segments that have no record in the row it resumes from, or
      none whose file is still there; and it calls the provider for the first of them, up to
      where it stops. */
  lemma ResumeCallsMissing(row: Row, m: map<nat, Segment>, a: Attempt, row': Row, count: nat)
    requires Holds(row, m, count) && Leads(row, a, row', count)
    ensures forall i :: i in TargetsOf(row, a, count) <==> 1 <= i <= count && !(i in m && File(row.task, i) in a.disk)
    ensures TriedBy(row, a, count) <= a.calls <= TargetsOf(row, a, count)
    ensures a.ending.Returned? ==> a.calls == TargetsOf(row, a, count)
  {
    HoldsDecode(row, m, count, a.disk);
  }

  /** The attempt leaves what it found: it returns, or it goes on in the same row; and the
      directory is not discarded. */
  ghost predicate Keeps(row: Row, a: Attempt) {
    !a.ending.Cancelled? && (a.ending.Returned? || a.task == row.task)
  }

  lemma AfterReturn(row: Row, m: map<nat, Segment>, a: Attempt, row': Row, next: Attempt, count: nat, i: nat)
    requires Holds(row, m, count) && Leads(row, a, row', count) && Follows(a, next) && a.ending.Returned?
    ensures i in Found(row', next, count) <==> i in a.segments
    ensures i in a.segments ==> SegmentOf(Found(row', next, count)[i]) == a.segments[i]
  {
    SegmentsHealthy(row, m, a, row', count);
    EncodeHolds(a.task, a.segments, a.disk', count);
    HoldsDecode(row', a.segments, count, next.disk);
  }

  lemma AfterStop(row: Row, m: map<nat, Segment>, a: Attempt, row': Row, next: Attempt, count: nat, i: nat)
    requires Holds(row, m, count) && Leads(row, a, row', count) && Follows(a, next)
    requires a.ending.Raised? || a.ending.Interrupted?
    ensures i in Found(row', next, count) <==>
            (i in Found(row, a, count) && a.task == row.task) || Generates(row, a, count, i)
    ensures i in Found(row', next, count) ==> SegmentOf(Found(row', next, count)[i]) == a.segments[i]
  {
    HoldsDecode(row, m, count, a.disk);
    MergedHolds(row, m, a, row', count);
    MergedMembers(row, m, a, count);
    HoldsDecode(row', Merged(row, m, a, count), count, next.disk);
    assert IsOwn(File(a.task, i), a.task, a.segments.Keys) <==> i in a.segments;
  }

  /** What the next attempt finds: what this one found and left, and what it generated, as
      long as the directory is not discarded. */
  lemma FoundAfter(row: Row, a: Attempt, row': Row, next: Attempt, count: nat, i: nat)
    requires Sound(row, count) && Leads(row, a, row', count) && Follows(a, next)
    ensures var found, found' := Found(row, a, count), Found(row', next, count);
            && (i in found' <==> (i in found && Keeps(row, a)) || (Generates(row, a, count, i) && !a.ending.Cancelled?))
            && (i in found' ==> SegmentOf(found'[i]) == a.segments[i])
  {
    var m :| Holds(row, m, count);
    match a.ending {
      case Returned =>
        AfterReturn(row, m, a, row', next, count, i);
      case Cancelled =>
        MergedHolds(row, m, a, row', count);
        HoldsDecode(row', Merged(row, m, a, count), count, next.disk);
      case _ =>
        AfterStop(row, m, a, row', next, count, i);
    }
  }

  /** After an attempt, a segment it found is wanted again if and only if the attempt was
      cancelled, or did not return in a row that started empty. One that it generated is
      wanted again if and only if it was cancelled. */
  lemma WantedAgainIff(row: Row, a: Attempt, row': Row, next: Attempt, count: nat, i: nat)
    requires Sound(row, count) && Leads(row, a, row', count) && Follows(a, next)
    ensures i in Found(row, a, count) ==>
              (i in TargetsOf(row', next, count) <==> a.ending.Cancelled? || (!a.ending.Returned? && a.task != row.task))
    ensures Generates(row, a, count, i) ==> (i in TargetsOf(row', next, count) <==> a.ending.Cancelled?)
  {
    FoundAfter(row, a, row', next, count, i);
    assert Generates(row, a, count, i) ==> i in TargetsOf(row, a, count);
  }

  // ---- any number of attempts

  /** A first attempt and its resumptions, each from the row of the one before. Only a task
      that was interrupted is restarted. */
  ghost predicate IsChain(rows: seq<Row>, attempts: seq<Attempt>, count: nat) {
    && |rows| == |attempts| + 1 && rows[0].checkpoint == EMPTY
    && (forall k | 0 <= k < |attempts| :: Leads(rows[k], attempts[k], rows[k + 1], count))
    && forall k | 0 <= k < |attempts| - 1 ::
         && Follows(attempts[k], attempts[k + 1])
         && (attempts[k + 1].task == attempts[k].task ==> attempts[k].ending.Interrupted?)
  }

  lemma {:induction false} ChainSound(rows: seq<Row>, attempts: seq<Attempt>, count: nat, k: nat)
    requires IsChain(rows, attempts, count) && k < |rows|
    ensures Sound(rows[k], count)
  {
    if k == 0 {
      assert Holds(rows[0], map[], count);
    } else {
      ChainSound(rows, attempts, count, k - 1);
      assert Leads(rows[k - 1], attempts[k - 1], rows[k - 1 + 1], count);
      SoundAfter(rows[k - 1], attempts[k - 1], rows[k], count);
    }
  }

  /** Attempt j generated the segment and left it, and every attempt between j and k did. */
  ghost predicate Brings(rows: seq<Row>, attempts: seq<Attempt>, count: nat, i: nat, j: nat, k: nat)
    requires k <= |attempts| <= |rows|
  {
    && j < k && Generates(rows[j], attempts[j], count, i) && !attempts[j].ending.Cancelled?
    && forall l | j < l < k :: Keeps(rows[l], attempts[l])
  }

  lemma BringsMore(rows: seq<Row>, attempts: seq<Attempt>, count: nat, i: nat, j: nat, k: nat)
    requires k < |attempts| <= |rows|
    ensures Brings(rows, attempts, count, i, j, k + 1) <==>
            if j == k then Generates(rows[k], attempts[k], count, i) && !attempts[k].ending.Cancelled?
            else Brings(rows, attempts, count, i, j, k) && Keeps(rows[k], attempts[k])
  {
  }

  /** What an attempt finds is exactly what an earlier one generated and brought to it. */
  lemma {:induction false} FoundIff(rows: seq<Row>, attempts: seq<Attempt>, count: nat, i: nat, k: nat)
    requires IsChain(rows, attempts, count) && k < |attempts|
    ensures i in Found(rows[k], attempts[k], count) <==> exists j: nat :: Brings(rows, attempts, count, i, j, k)
    ensures forall j: nat | Brings(rows, attempts, count, i, j, k) ::
              i in Found(rows[k], attempts[k], count) &&
              SegmentOf(Found(rows[k], attempts[k], count)[i]) == Made(attempts[j].provider(i))
    decreases k
  {
    if k == 0 {
      HoldsDecode(rows[0], map[], count, attempts[0].disk);
      assert Holds(rows[0], map[], count);
    } else {
      var l := k - 1;
      FoundIff(rows, attempts, count, i, l);
      ChainSound(rows, attempts, count, l);
      assert Leads(rows[l], attempts[l], rows[l + 1], count) && Follows(attempts[l], attempts[l + 1]);
      FoundAfter(rows[l], attempts[l], rows[k], attempts[k], count, i);
      forall j: nat
        ensures Brings(rows, attempts, count, i, j, k) <==>
                if j == l then Generates(rows[l], attempts[l], count, i) && !attempts[l].ending.Cancelled?
                else Brings(rows, attempts, count, i, j, l) && Keeps(rows[l], attempts[l])
      {
        BringsMore(rows, attempts, count, i, j, l);
      }
    }
  }

  /** An attempt wants a segment if and only if no earlier attempt brings it. So a segment
      that the provider has made is never called for again, as long as its attempt was not
      cancelled and all attempts since then kept what they found. */
  lemma GeneratedOnce(rows: seq<Row>, attempts: seq<Attempt>, count: nat, i: nat, k: nat)
    requires IsChain(rows, attempts, count) && k < |attempts| && 1 <= i <= count
    ensures i in TargetsOf(rows[k], attempts[k], count) <==> !exists j: nat :: Brings(rows, attempts, count, i, j, k)
    ensures i in attempts[k].calls ==> !exists j: nat :: Brings(rows, attempts, count, i, j, k)
  {
    FoundIff(rows, attempts, count, i, k);
    assert Leads(rows[k], attempts[k], rows[k + 1], count);
    assert i in attempts[k].calls ==> i in TargetsOf(rows[k], attempts[k], count);
  }

  // ---- examples

  lemma SegmentsOf(found: map<nat, Restored>, tried: seq<nat>, provider: Provider) returns (segments: map<nat, Segment>)
    requires forall i | i in tried :: i !in found
    requires 0 !in found
    ensures RunResult(found, 0, tried, provider, segments)
  {
    var indices := found.Keys + set i | i in tried && provider(i).Generated?;
    segments := map i | i in indices :: if i in tried then Made(provider(i)) else SegmentOf(found[i]);
  }

  lemma FilesOf(task: nat, segments: map<nat, Segment>, disk: Disk) returns (disk': Disk)
    ensures FilesThere(task, segments, disk, disk')
  {
    var places := set i | i in segments :: File(task, i);
    disk' := disk + map p | p in places :: "";
  }

  /** From every row, an attempt can do what its provider and its end allow. */
  lemma Attempted(row: Row, task: nat, disk: Disk, provider: Provider, stop: nat, ending: Ending, count: nat)
    returns (a: Attempt, row': Row)
    requires ending.Returned? ==> Returns(Targets(Decode(row.checkpoint, count, disk), count, 0), stop, provider)
    ensures Leads(row, a, row', count)
    ensures a.task == task && a.disk == disk && a.provider == provider && a.stop == stop && a.ending == ending
  {
    var found := Decode(row.checkpoint, count, disk);
    var targets, tried := Targets(found, count, 0), Tried(found, count, 0, stop, provider);
    assert forall i | i in tried :: i in targets;
    var segments := SegmentsOf(found, tried, provider);
    var disk' := FilesOf(task, segments, disk);
    a := Attempt(task, disk, provider, stop, ending, segments, disk', Called(targets, stop, provider));
    row' := Row(task, CheckpointAfter(row, a, count));
  }

  lemma BothDone(provider: Provider, stop: nat)
    requires !provider(1).Cancelled? && !provider(2).Cancelled? && stop in {1, 3}
    ensures Done([1, 2], stop, provider) == if stop == 1 then 1 else 2
  {
    if stop == 1 {
      assert DoneFrom([1, 2], 1, provider, 1) == 1;
    } else {
      assert DoneFrom([1, 2], 3, provider, 1) == 2;
    }
  }

  lemma FirstTargets(row: Row, disk: Disk, provider: Provider, stop: nat)
    requires row.checkpoint == EMPTY && !provider(1).Cancelled? && !provider(2).Cancelled? && stop in {1, 3}
    ensures Decode(row.checkpoint, 2, disk) == map[]
    ensures Targets(map[], 2, 0) == [1, 2]
    ensures Tried(map[], 2, 0, stop, provider) == if stop == 1 then [1] else [1, 2]
    ensures stop == 3 ==> Returns([1, 2], 3, provider)
  {
    assert MissingUpTo(map[], 1) == [1];
    BothDone(provider, stop);
  }

  /** The first segment is wanted and therefore tried first. */
  lemma GeneratesFirst(row: Row, a: Attempt, count: nat)
    requires 1 in TargetsOf(row, a, count) && a.stop > 0 && a.provider(1).Generated?
    ensures Generates(row, a, count, 1)
  {
    var targets := TargetsOf(row, a, count);
    assert targets[0] == 1 by {
      var k :| 0 <= k < |targets| && targets[k] == 1;
      assert targets[0] in targets;
    }
    assert Done(targets, a.stop, a.provider) == DoneFrom(targets, a.stop, a.provider, 1);
  }

  lemma ChainOfTwo(start: Row, a: Attempt, row: Row, b: Attempt, row': Row, count: nat)
    requires start.checkpoint == EMPTY && Leads(start, a, row, count) && Leads(row, b, row', count)
    requires Follows(a, b) && a.task != b.task
    ensures IsChain([start, row, row'], [a, b], count)
  {
    AllOfTwo([start, row, row'], [a, b], count);
  }

  lemma AllOfTwo(rows: seq<Row>, attempts: seq<Attempt>, count: nat)
    requires |rows| == 3 && |attempts| == 2
    requires Leads(rows[0], attempts[0], rows[1], count) && Leads(rows[1], attempts[1], rows[2], count)
    ensures forall k | 0 <= k < 2 :: Leads(rows[k], attempts[k], rows[k + 1], count)
  {
    forall k | 0 <= k < 2
      ensures Leads(rows[k], attempts[k], rows[k + 1], count)
    {
      if k == 0 {
      } else {
        assert k == 1;
      }
    }
  }

  lemma ChainOfThree(start: Row, a: Attempt, row: Row, b: Attempt, row': Row, c: Attempt, row'': Row, count: nat)
    requires start.checkpoint == EMPTY && Leads(start, a, row, count) && Leads(row, b, row', count) && Leads(row', c, row'', count)
    requires Follows(a, b) && Follows(b, c) && a.task != b.task && b.task != c.task
    ensures IsChain([start, row, row', row''], [a, b, c], count)
  {
    ChainOfTwo(start, a, row, b, row', count);
    var rows, attempts := [start, row, row', row''], [a, b, c];
    assert rows[..3] == [start, row, row'] && attempts[..2] == [a, b];
    ChainLonger(rows, attempts, count);
  }

  lemma ChainLonger(rows: seq<Row>, attempts: seq<Attempt>, count: nat)
    requires |rows| == 4 && |attempts| == 3 && IsChain(rows[..3], attempts[..2], count)
    requires Leads(rows[2], attempts[2], rows[3], count)
    requires Follows(attempts[1], attempts[2]) && attempts[1].task != attempts[2].task
    ensures IsChain(rows, attempts, count)
  {
    forall k | 0 <= k < 3
      ensures Leads(rows[k], attempts[k], rows[k + 1], count)
    {
      if k < 2 {
        assert Leads(rows[..3][k], attempts[..2][k], rows[..3][k + 1], count);
      }
    }
    forall k | 0 <= k < 2
      ensures Follows(attempts[k], attempts[k + 1])
      ensures attempts[k + 1].task == attempts[k].task ==> attempts[k].ending.Interrupted?
    {
      if k < 1 {
        assert Follows(attempts[..2][k], attempts[..2][k + 1]);
      }
    }
  }

  lemma EmptyIsSound(task: nat, count: nat)
    ensures Sound(Row(task, EMPTY), count)
  {
    assert Holds(Row(task, EMPTY), map[], count);
  }

  /** A first run makes segment 1 and is cancelled before segment 2; the resume of it makes
      segment 1 again. */
  lemma CancelledThenAgain(provider: Provider) returns (rows: seq<Row>, attempts: seq<Attempt>)
    requires provider(1).Generated? && provider(2).Generated?
    ensures IsChain(rows, attempts, 2) && |attempts| == 2 && attempts[0].ending.Cancelled?
    ensures Generates(rows[0], attempts[0], 2, 1) && Generates(rows[1], attempts[1], 2, 1)
  {
    var start := Row(0, EMPTY);
    FirstTargets(start, map[], provider, 1);
    var a, row := Attempted(start, 0, map[], provider, 1, Ending.Cancelled, 2);
    var b, row' := Attempted(row, 1, map[], provider, 3, Raised, 2);
    EmptyIsSound(0, 2);
    WantedAgainIff(start, a, row, b, 2, 1);
    GeneratesFirst(row, b, 2);
    ChainOfTwo(start, a, row, b, row', 2);
    rows, attempts := [start, row, row'], [a, b];
  }

  lemma SecondTarget(row: Row, b: Attempt)
    requires 1 in Found(row, b, 2) && 2 !in Found(row, b, 2) && b.provider(2).Generated? && b.stop == 1
    ensures TargetsOf(row, b, 2) == [2] && Done([2], 1, b.provider) == 1 && Generates(row, b, 2, 2)
  {
    assert MissingUpTo(Found(row, b, 2), 1) == [];
    assert DoneFrom([2], 1, b.provider, 1) == 1;
  }

  /** The first run makes segment 1, fails at segment 2, and returns. */
  lemma FirstReturns(provider: Provider) returns (a: Attempt, row: Row)
    requires provider(1).Generated? && provider(2).Failed?
    ensures Leads(Row(0, EMPTY), a, row, 2) && a.ending.Returned? && a.task == 0
    ensures Generates(Row(0, EMPTY), a, 2, 1) && a.segments.Keys == {1}
  {
    var start := Row(0, EMPTY);
    FirstTargets(start, map[], provider, 3);
    a, row := Attempted(start, 0, map[], provider, 3, Returned, 2);
    OnlyFirst(provider, a.segments);
  }

  lemma OnlyFirst(provider: Provider, segments: map<nat, Segment>)
    requires RunResult(map[], 0, [1, 2], provider, segments) && provider(1).Generated? && provider(2).Failed?
    ensures segments.Keys == {1}
  {
    assert 1 in [1, 2];
  }

  /** A resume by the user makes segment 2, and raises when it joins the segments. */
  lemma SecondRaises(a: Attempt, row: Row, provider: Provider) returns (b: Attempt, row': Row)
    requires Leads(Row(0, EMPTY), a, row, 2) && a.ending.Returned? && a.task == 0 && a.segments.Keys == {1}
    requires provider(2).Generated?
    ensures Leads(row, b, row', 2) && Follows(a, b) && b.ending.Raised? && b.task == 1 && b.stop == 1
    ensures 1 in Found(row, b, 2) && TargetsOf(row, b, 2) == [2] && Generates(row, b, 2, 2)
    ensures Sound(row, 2)
  {
    b, row' := Attempted(row, 1, a.disk', provider, 1, Raised, 2);
    EmptyIsSound(0, 2);
    FoundAfter(Row(0, EMPTY), a, row, b, 2, 1);
    FoundAfter(Row(0, EMPTY), a, row, b, 2, 2);
    SecondTarget(row, b);
    SoundAfter(Row(0, EMPTY), a, row, 2);
  }

  /** The resume of that one makes segment 1 again. */
  lemma ThirdGenerates(row: Row, b: Attempt, row': Row, provider: Provider) returns (c: Attempt, row'': Row)
    requires Sound(row, 2) && Leads(row, b, row', 2) && b.ending.Raised? && b.task != row.task && b.task != 2
    requires 1 in Found(row, b, 2) && provider(1).Generated?
    ensures Leads(row', c, row'', 2) && Follows(b, c) && c.task == 2 && Generates(row', c, 2, 1)
  {
    c, row'' := Attempted(row', 2, b.disk', provider, 3, Raised, 2);
    WantedAgainIff(row, b, row', c, 2, 1);
    GeneratesFirst(row', c, 2);
  }

  /** Together: segment 1 is generated twice, although the attempt in between got all of its
      targets done. */
  lemma GeneratedTwice(first: Provider, second: Provider) returns (rows: seq<Row>, attempts: seq<Attempt>)
    requires first(1).Generated? && first(2).Failed? && second(1).Generated? && second(2).Generated?
    ensures IsChain(rows, attempts, 2) && |attempts| == 3
    ensures attempts[0].ending.Returned? && Generates(rows[0], attempts[0], 2, 1)
    ensures TargetsOf(rows[1], attempts[1], 2) == [2] && Generates(rows[1], attempts[1], 2, 2) && attempts[1].ending.Raised?
    ensures Generates(rows[2], attempts[2], 2, 1)
  {
    var start, a, row, b, row', c, row'' := ThreeAttempts(first, second);
    rows, attempts := [start, row, row', row''], [a, b, c];
    ChainOfThree(start, a, row, b, row', c, row'', 2);
  }

  lemma ThreeAttempts(first: Provider, second: Provider)
    returns (start: Row, a: Attempt, row: Row, b: Attempt, row': Row, c: Attempt, row'': Row)
    requires first(1).Generated? && first(2).Failed? && second(1).Generated? && second(2).Generated?
    ensures start.checkpoint == EMPTY && a.task != b.task && b.task != c.task
    ensures Leads(start, a, row, 2) && Leads(row, b, row', 2) && Leads(row', c, row'', 2)
    ensures Follows(a, b) && Follows(b, c)
    ensures a.ending.Returned? && Generates(start, a, 2, 1)
    ensures TargetsOf(row, b, 2) == [2] && Generates(row, b, 2, 2) && b.ending.Raised?
    ensures Generates(row', c, 2, 1)
  {
    start := Row(0, EMPTY);
    a, row := FirstReturns(first);
    b, row' := SecondRaises(a, row, second);
    c, row'' := ThirdGenerates(row, b, row', second);
  }
}
