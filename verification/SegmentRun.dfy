/** The digital-human video run that generates numbered segments, keeps the finished ones
    in a checkpoint, and resumes from it. */
module SegmentRun {
  import opened Basics
  import opened ScriptText

  /** The file of a segment in the directory of a task, or any other file. */
  datatype Path = File(task: nat, index: nat) | Foreign(name: string)

  type Content = string

  type Disk = map<Path, Content>

  // ---- provider task ids

  /** The stripped values that are not blank, each once, in the order of first use. */
  function Unique(values: seq<string>): (r: seq<string>)
    ensures Clean(r)
  {
    if values == [] then [] else Added(Unique(values[..|values| - 1]), values[|values| - 1])
  }

  function Added(ids: seq<string>, value: string): (r: seq<string>)
    requires Clean(ids)
    ensures Clean(r) && ids <= r
    ensures forall x :: x in r <==> x in ids || (x != "" && x == Strip(value))
  {
    var item := Strip(value);
    if item == "" || item in ids then ids
    else
      assert Stripped(item);
      ids + [item]
  }

  ghost predicate NamedIn(values: seq<string>, x: string) {
    x != "" && exists k :: 0 <= k < |values| && Strip(values[k]) == x
  }

  /** Nothing is lost and nothing added. */
  lemma {:induction false} UniqueMembers(values: seq<string>, x: string)
    ensures x in Unique(values) <==> NamedIn(values, x)
  {
    if values != [] {
      var n := |values| - 1;
      UniqueMembers(values[..n], x);
      NamedInEither(values[..n], [values[n]], x);
      assert values == values[..n] + [values[n]];
      assert NamedIn([values[n]], x) <==> x != "" && Strip(values[n]) == x by {
        assert [values[n]][0] == values[n];
      }
    }
  }

  /** More values never move the ones before. */
  lemma {:induction false} UniqueGrows(values: seq<string>, more: seq<string>)
    ensures Unique(values) <= Unique(values + more)
  {
    if more != [] {
      var n := |more| - 1;
      UniqueGrows(values, more[..n]);
      assert (values + more)[..|values| + n] == values + more[..n];
    } else {
      assert values + more == values;
    }
  }

  /** What Unique puts out, and leaves alone. */
  ghost predicate Clean(ids: seq<string>) {
    && (forall i | 0 <= i < |ids| :: ids[i] != "" && Stripped(ids[i]))
    && forall i, j | 0 <= i < j < |ids| :: ids[i] != ids[j]
  }

  lemma {:induction false} UniqueOfClean(ids: seq<string>)
    requires Clean(ids)
    ensures Unique(ids) == ids
  {
    if ids != [] {
      var n := |ids| - 1;
      UniqueOfClean(ids[..n]);
      assert Strip(ids[n]) == ids[n];
      assert ids[n] !in ids[..n];
      assert ids == ids[..n] + [ids[n]];
    }
  }

  lemma {:induction false} UniqueIgnoresRepeats(ids: seq<string>, more: seq<string>)
    requires Clean(ids) && forall x | x in more :: x == "" || x in ids
    ensures Unique(ids + more) == ids
  {
    if more == [] {
      assert ids + more == ids;
      UniqueOfClean(ids);
    } else {
      var n := |more| - 1;
      assert (ids + more)[..|ids| + n] == ids + more[..n];
      UniqueIgnoresRepeats(ids, more[..n]);
      var x := more[n];
      assert x in more;
      if x != "" {
        var k :| 0 <= k < |ids| && ids[k] == x;
        assert Strip(ids[k]) == ids[k];
      } else {
        assert Strip("") == "";
      }
    }
  }

  // ---- the checkpoint

  /** One entry of completed_segments. */
  datatype Record = Record(index: int, path: Path, duration: real,
                           runninghubIds: seq<string>, providerIds: seq<string>, runninghubId: string, providerId: string)

  datatype Checkpoint = Checkpoint(records: seq<Record>, paths: seq<Option<Path>>, taskIds: map<nat, seq<string>>)

  /** A finished segment as the resumed run knows it. */
  datatype Restored = Restored(path: Path, ids: seq<string>, duration: real)

  function TaskIds(r: Record): seq<string> {
    Unique(r.runninghubIds + r.providerIds + [r.runninghubId, r.providerId])
  }

  function NonNegative(x: real): (r: real)
    ensures r >= 0.0 && (x >= 0.0 ==> r == x) && (x < 0.0 ==> r == 0.0)
  {
    if x >= 0.0 then x else 0.0
  }

  /** The ids of a record are those of its two lists and its two single fields. */
  lemma TaskIdsAre(r: Record, x: string)
    ensures x in TaskIds(r) <==>
            || NamedIn(r.runninghubIds, x) || NamedIn(r.providerIds, x)
            || (x != "" && (x == Strip(r.runninghubId) || x == Strip(r.providerId)))
  {
    var lists, all := r.runninghubIds + r.providerIds, r.runninghubIds + r.providerIds + [r.runninghubId, r.providerId];
    UniqueMembers(all, x);
    NamedInEither(r.runninghubIds, r.providerIds, x);
    NamedInEither(lists, [r.runninghubId, r.providerId], x);
    assert [r.runninghubId, r.providerId][0] == r.runninghubId && [r.runninghubId, r.providerId][1] == r.providerId;
  }

  lemma NamedInEither(a: seq<string>, b: seq<string>, x: string)
    ensures NamedIn(a + b, x) <==> NamedIn(a, x) || NamedIn(b, x)
  {
    assert forall k | 0 <= k < |a| :: (a + b)[k] == a[k];
    assert forall k | 0 <= k < |b| :: (a + b)[|a| + k] == b[k];
  }

  function RestoredFrom(x: Record): Restored {
    Restored(x.path, TaskIds(x), NonNegative(x.duration))
  }

  /** The segment of the record at position k: one without an index counts by its position. */
  function IndexAt(records: seq<Record>, k: nat): int
    requires k < |records|
  {
    if records[k].index == 0 then k + 1 else records[k].index
  }

  /** The records of completed_segments whose index is in range and whose file exists. */
  function FromRecords(records: seq<Record>, count: nat, disk: Disk): (r: map<nat, Restored>)
    ensures forall i | i in r :: 1 <= i <= count && r[i].path in disk
  {
    if records == [] then map[]
    else
      var n := |records| - 1;
      var before := FromRecords(records[..n], count, disk);
      var index := IndexAt(records, n);
      if 1 <= index <= count && records[n].path in disk then before[index := RestoredFrom(records[n])] else before
  }

  /** Record k is one of segment i, and its file is there. */
  ghost predicate Gives(records: seq<Record>, k: nat, i: nat, count: nat, disk: Disk) {
    k < |records| && (records[k].index == i || (records[k].index == 0 && k + 1 == i)) && 1 <= i <= count && records[k].path in disk
  }

  ghost predicate GivesLast(records: seq<Record>, k: nat, i: nat, count: nat, disk: Disk) {
    && Gives(records, k, i, count, disk)
    && forall j: nat | Gives(records, j, i, count, disk) :: j <= k
  }

  lemma {:induction false} LastRecord(records: seq<Record>, count: nat, disk: Disk, i: nat) returns (k: nat)
    ensures i in FromRecords(records, count, disk) <==> exists j: nat :: Gives(records, j, i, count, disk)
    ensures i in FromRecords(records, count, disk) ==>
              GivesLast(records, k, i, count, disk) && FromRecords(records, count, disk)[i] == RestoredFrom(records[k])
  {
    k := 0;
    if records != [] {
      var n := |records| - 1;
      var before := records[..n];
      k := LastRecord(before, count, disk, i);
      forall j: nat | j < n
        ensures Gives(records, j, i, count, disk) == Gives(before, j, i, count, disk)
      {
        assert records[j] == before[j];
      }
      if IndexAt(records, n) == i && 1 <= i <= count && records[n].path in disk {
        k := n;
        assert Gives(records, n, i, count, disk);
      }
    }
  }

  /** A segment is restored exactly when some record of it has its file, and the last such
      record says with which file, task ids and duration. */
  lemma LastRecordWins(records: seq<Record>, count: nat, disk: Disk, i: nat) returns (k: nat)
    ensures i in FromRecords(records, count, disk) <==> exists j: nat :: Gives(records, j, i, count, disk)
    ensures i in FromRecords(records, count, disk) ==>
              && GivesLast(records, k, i, count, disk)
              && FromRecords(records, count, disk)[i].path == records[k].path
              && FromRecords(records, count, disk)[i].ids == TaskIds(records[k])
              && FromRecords(records, count, disk)[i].duration == if records[k].duration >= 0.0 then records[k].duration else 0.0
  {
    k := LastRecord(records, count, disk, i);
  }

  /** Paths fill in what the records did not give; their durations are unknown. */
  function WithPaths(found: map<nat, Restored>, c: Checkpoint, count: nat, disk: Disk, k: nat): (r: map<nat, Restored>)
    requires k <= |c.paths|
    requires forall i | i in found :: 1 <= i <= count && found[i].path in disk
    ensures forall i | i in r :: 1 <= i <= count && r[i].path in disk
    decreases |c.paths| - k
  {
    if k == |c.paths| then found
    else
      var index := k + 1;
      var path := c.paths[k];
      if index in found || index > count || path.None? || path.value !in disk then WithPaths(found, c, count, disk, k + 1)
      else
        var ids := if index in c.taskIds then Unique(c.taskIds[index]) else [];
        WithPaths(found[index := Restored(path.value, ids, 0.0)], c, count, disk, k + 1)
  }

  /** What a resumed run finds in a checkpoint. */
  function Decode(c: Checkpoint, count: nat, disk: Disk): map<nat, Restored> {
    WithPaths(FromRecords(c.records, count, disk), c, count, disk, 0)
  }

  /** The list of paths has a file of segment i, from position k on. */
  ghost predicate HasPath(c: Checkpoint, k: nat, i: nat, count: nat, disk: Disk) {
    k < i <= |c.paths| && i <= count && c.paths[i - 1].Some? && c.paths[i - 1].value in disk
  }

  lemma {:induction false} PathsFill(found: map<nat, Restored>, c: Checkpoint, count: nat, disk: Disk, k: nat, i: nat)
    requires k <= |c.paths|
    requires forall j | j in found :: 1 <= j <= count && found[j].path in disk
    ensures var all := WithPaths(found, c, count, disk, k);
            && (i in all <==> i in found || HasPath(c, k, i, count, disk))
            && (i in found ==> all[i] == found[i])
            && (i !in found && i in all ==>
                  && all[i].path == c.paths[i - 1].value && all[i].duration == 0.0
                  && all[i].ids == if i in c.taskIds then Unique(c.taskIds[i]) else [])
    decreases |c.paths| - k
  {
    if k < |c.paths| {
      var index, path := k + 1, c.paths[k];
      if index in found || index > count || path.None? || path.value !in disk {
        PathsFill(found, c, count, disk, k + 1, i);
      } else {
        var ids := if index in c.taskIds then Unique(c.taskIds[index]) else [];
        var found' := found[index := Restored(path.value, ids, 0.0)];
        assert WithPaths(found, c, count, disk, k) == WithPaths(found', c, count, disk, k + 1);
        PathsFill(found', c, count, disk, k + 1, i);
      }
    }
  }

  /** A segment is found exactly when a record or else the list of paths has its file, and a
      record counts before the list. */
  lemma DecodeIs(c: Checkpoint, count: nat, disk: Disk, i: nat)
    ensures var records, all := FromRecords(c.records, count, disk), Decode(c, count, disk);
            && (i in all <==> i in records || HasPath(c, 0, i, count, disk))
            && (i in records ==> all[i] == records[i])
            && (i !in records && i in all ==>
                  && all[i].path == c.paths[i - 1].value && all[i].duration == 0.0
                  && all[i].ids == if i in c.taskIds then Unique(c.taskIds[i]) else [])
  {
    PathsFill(FromRecords(c.records, count, disk), c, count, disk, 0, i);
  }

  /** A finished segment at the end of a run; its file is in the directory
      of the run's task. */
  datatype Segment = Segment(ids: seq<string>, duration: real)

  function LastOf(ids: seq<string>): (id: string)
    ensures ids != [] ==> id == ids[|ids| - 1]
    ensures ids == [] ==> id == ""
  {
    if ids == [] then "" else ids[|ids| - 1]
  }

  function RecordOf(task: nat, i: nat, s: Segment): Record {
    Record(i, File(task, i), NonNegative(s.duration), s.ids, s.ids, LastOf(s.ids), LastOf(s.ids))
  }

  /** completed_segments of the first n segments: those that are finished and on disk. */
  function Records(task: nat, segments: map<nat, Segment>, disk: Disk, n: nat): seq<Record> {
    if n == 0 then []
    else
      Records(task, segments, disk, n - 1)
      + (if n in segments && File(task, n) in disk then [RecordOf(task, n, segments[n])] else [])
  }

  function Encode(task: nat, segments: map<nat, Segment>, disk: Disk, count: nat): Checkpoint {
    Checkpoint(
      Records(task, segments, disk, count),
      seq(count, k requires 0 <= k < count => if k + 1 in segments then Some(File(task, k + 1)) else None),
      map i | i in segments && File(task, i) in disk && 1 <= i <= count :: segments[i].ids)
  }

  lemma RecordIds(task: nat, i: nat, s: Segment)
    requires Clean(s.ids)
    ensures TaskIds(RecordOf(task, i, s)) == s.ids
  {
    var last := LastOf(s.ids);
    assert s.ids + s.ids + [last, last] == s.ids + (s.ids + [last, last]);
    UniqueIgnoresRepeats(s.ids, s.ids + [last, last]);
  }

  /** The finished segments of the first n, as a resumed run should find them. */
  function Finished(task: nat, segments: map<nat, Segment>, disk: Disk, n: nat): map<nat, Restored> {
    map i | i in segments && 1 <= i <= n && File(task, i) in disk :: Restored(File(task, i), segments[i].ids, segments[i].duration)
  }

  ghost predicate Healthy(segments: map<nat, Segment>) {
    forall i | i in segments :: Clean(segments[i].ids) && segments[i].duration >= 0.0
  }

  lemma FinishedStep(task: nat, segments: map<nat, Segment>, disk: Disk, n: nat)
    requires n > 0
    ensures Finished(task, segments, disk, n) ==
            if n in segments && File(task, n) in disk
            then Finished(task, segments, disk, n - 1)[n := Restored(File(task, n), segments[n].ids, segments[n].duration)]
            else Finished(task, segments, disk, n - 1)
  {
  }

  lemma OneMoreRecord(task: nat, records: seq<Record>, i: nat, s: Segment, count: nat, disk: Disk)
    requires Clean(s.ids) && s.duration >= 0.0 && 1 <= i <= count && File(task, i) in disk
    ensures FromRecords(records + [RecordOf(task, i, s)], count, disk)
         == FromRecords(records, count, disk)[i := Restored(File(task, i), s.ids, s.duration)]
  {
    var all := records + [RecordOf(task, i, s)];
    assert all[..|all| - 1] == records;
    RecordIds(task, i, s);
  }

  lemma {:induction false} RecordsDecode(task: nat, segments: map<nat, Segment>, disk: Disk, n: nat, count: nat)
    requires Healthy(segments) && n <= count
    ensures FromRecords(Records(task, segments, disk, n), count, disk) == Finished(task, segments, disk, n)
  {
    if n > 0 {
      RecordsDecode(task, segments, disk, n - 1, count);
      FinishedStep(task, segments, disk, n);
      if n in segments && File(task, n) in disk {
        OneMoreRecord(task, Records(task, segments, disk, n - 1), n, segments[n], count, disk);
      } else {
        assert Records(task, segments, disk, n) == Records(task, segments, disk, n - 1) + [];
        assert Records(task, segments, disk, n - 1) + [] == Records(task, segments, disk, n - 1);
      }
    } else {
      assert Finished(task, segments, disk, 0) == map[];
    }
  }

  /** Paths of segments that are known already, or whose file is gone, add nothing. */
  lemma {:induction false} PathsAddNothing(found: map<nat, Restored>, c: Checkpoint, count: nat, disk: Disk, k: nat)
    requires k <= |c.paths|
    requires forall i | i in found :: 1 <= i <= count && found[i].path in disk
    requires forall j | 0 <= j < |c.paths| && c.paths[j].Some? && c.paths[j].value in disk :: j + 1 in found
    ensures WithPaths(found, c, count, disk, k) == found
    decreases |c.paths| - k
  {
    if k < |c.paths| {
      PathsAddNothing(found, c, count, disk, k + 1);
    }
  }

  /** Resuming from a run's own checkpoint finds exactly its finished segments, with their
      durations and provider ids. */
  lemma CheckpointRoundTrip(task: nat, segments: map<nat, Segment>, disk: Disk, count: nat)
    requires Healthy(segments)
    ensures Decode(Encode(task, segments, disk, count), count, disk) == Finished(task, segments, disk, count)
  {
    RecordsDecode(task, segments, disk, count, count);
    PathsAddNothing(Finished(task, segments, disk, count), Encode(task, segments, disk, count), count, disk, 0);
  }

  /** Without its records, a checkpoint still brings the finished segments by its paths, but
      not their durations. */
  lemma PathsSuffice(task: nat, segments: map<nat, Segment>, disk: Disk, count: nat, i: nat)
    requires Healthy(segments)
    ensures var found := Decode(Encode(task, segments, disk, count).(records := []), count, disk);
            && (i in found <==> 1 <= i <= count && i in segments && File(task, i) in disk)
            && (i in found ==> found[i] == Restored(File(task, i), segments[i].ids, 0.0))
  {
    var c := Encode(task, segments, disk, count).(records := []);
    DecodeIs(c, count, disk, i);
    if i in Decode(c, count, disk) {
      UniqueOfClean(segments[i].ids);
    }
  }

  // ---- the checkpoint of a run that is still going on

  function Without(records: seq<Record>, index: int): seq<Record> {
    if records == [] then []
    else (if records[0].index == index then [] else [records[0]]) + Without(records[1..], index)
  }

  ghost predicate Sorted(records: seq<Record>) {
    forall j, k | 0 <= j < k < |records| :: records[j].index <= records[k].index
  }

  /** Inserts a record behind those of the same or a smaller index. */
  function Insert(records: seq<Record>, x: Record): (r: seq<Record>)
    requires Sorted(records)
    ensures |r| == |records| + 1 && Sorted(r) && forall y :: y in r <==> y == x || y in records
  {
    var n := |records|;
    if n == 0 || records[n - 1].index <= x.index then records + [x]
    else
      var before := Insert(records[..n - 1], x);
      assert records == records[..n - 1] + [records[n - 1]];
      assert forall j | 0 <= j < n :: before[j] in before && (before[j] == x || before[j] in records);
      before + [records[n - 1]]
  }

  function SortByIndex(records: seq<Record>): (r: seq<Record>)
    ensures Sorted(r) && forall y :: y in r <==> y in records
  {
    if records == [] then []
    else
      var n := |records| - 1;
      assert records == records[..n] + [records[n]];
      Insert(SortByIndex(records[..n]), records[n])
  }

  /** The list after one more segment is complete: its record replaces any earlier one. */
  function Merge(records: seq<Record>, x: Record): seq<Record> {
    SortByIndex(Without(records, x.index) + [x])
  }

  lemma {:induction false} WithoutMembers(records: seq<Record>, index: int, y: Record)
    ensures y in Without(records, index) <==> y in records && y.index != index
  {
    if records != [] {
      WithoutMembers(records[1..], index, y);
      assert records == [records[0]] + records[1..];
    }
  }

  lemma MergeMembers(records: seq<Record>, x: Record, y: Record)
    ensures y in Merge(records, x) <==> y == x || (y in records && y.index != x.index)
  {
    WithoutMembers(records, x.index, y);
  }

  // ---- the run

  /** What the provider does with a segment: a file content, task ids and a duration, or a
      failure, or the cancellation of the whole run. */
  datatype Outcome = Generated(content: Content, ids: seq<string>, duration: real) | Failed | Cancelled

  type Provider = nat -> Outcome

  function Made(g: Outcome): (s: Segment)
    requires g.Generated?
    ensures s.duration >= 0.0 && (g.duration >= 0.0 ==> s.duration == g.duration)
    ensures Clean(s.ids) && (Clean(g.ids) ==> s.ids == g.ids)
  {
    assert Clean(g.ids) ==> Unique(g.ids) == g.ids by {
      if Clean(g.ids) {
        UniqueOfClean(g.ids);
      }
    }
    Segment(Unique(g.ids), NonNegative(g.duration))
  }

  /** The segments a run has to generate. */
  function Targets(restored: map<nat, Restored>, count: nat, regenerate: nat): seq<nat> {
    if regenerate > 0 then [regenerate] else MissingUpTo(restored, count)
  }

  function MissingUpTo(restored: map<nat, Restored>, n: nat): (r: seq<nat>)
    ensures forall i :: i in r <==> 1 <= i <= n && i !in restored
    ensures forall j, k | 0 <= j < k < |r| :: r[j] < r[k]
  {
    if n == 0 then []
    else
      var before := MissingUpTo(restored, n - 1);
      assert forall j | 0 <= j < |before| :: before[j] in before;
      if n in restored then before else before + [n]
  }

  /** How many targets a run gets done when it raises before target number stop, or is
      cancelled by a provider. */
  function Done(targets: seq<nat>, stop: nat, provider: Provider): (n: nat)
    ensures n <= |targets|
  {
    DoneFrom(targets, stop, provider, 0)
  }

  function DoneFrom(targets: seq<nat>, stop: nat, provider: Provider, k: nat): (n: nat)
    requires k <= |targets|
    ensures k <= n <= |targets|
    decreases |targets| - k
  {
    if k == |targets| || k == stop || provider(targets[k]).Cancelled? then k
    else DoneFrom(targets, stop, provider, k + 1)
  }

  /** The run gets to its result. When it stops at the number of its targets, all are done
      but what comes after them raises, like joining the segments. */
  predicate Returns(targets: seq<nat>, stop: nat, provider: Provider) {
    Done(targets, stop, provider) == |targets| && stop != |targets|
  }

  /** The targets done, and the one whose provider cancelled the run. */
  function Called(targets: seq<nat>, stop: nat, provider: Provider): seq<nat> {
    var n := Done(targets, stop, provider);
    if n == |targets| || n == stop then targets[..n] else targets[..n + 1]
  }

  ghost predicate CalledAt(calls: seq<nat>, k: nat, stop: nat, provider: Provider, done: nat)
    requires k < |calls|
  {
    k != stop && (provider(calls[k]).Cancelled? <==> k >= done)
  }

  /** What a cancelled call or a raise ends, and nothing else. */
  ghost predicate EndsThere(targets: seq<nat>, stop: nat, provider: Provider, done: nat, calls: seq<nat>) {
    && calls <= targets && done <= |calls| <= done + 1
    && (forall k | 0 <= k < |calls| :: CalledAt(calls, k, stop, provider, done))
    && (|calls| < |targets| ==> |calls| == stop || |calls| == done + 1)
  }

  /** The calls go along the targets, up to the place where the run raises or its provider
      cancels it, and a target is done when its call does not cancel. */
  lemma CalledIs(targets: seq<nat>, stop: nat, provider: Provider)
    ensures EndsThere(targets, stop, provider, Done(targets, stop, provider), Called(targets, stop, provider))
    ensures Returns(targets, stop, provider) <==>
            Called(targets, stop, provider) == targets && stop != |targets| && forall i | i in targets :: !provider(i).Cancelled?
  {
    var calls, done := Called(targets, stop, provider), Done(targets, stop, provider);
    DoneIs(targets, stop, provider, 0);
    forall k | 0 <= k < |calls|
      ensures CalledAt(calls, k, stop, provider, done)
    {
      assert calls[k] == targets[k];
    }
    if done == |targets| {
      forall i | i in targets
        ensures !provider(i).Cancelled?
      {
        var k :| 0 <= k < |targets| && targets[k] == i;
      }
    }
  }

  lemma {:induction false} DoneIs(targets: seq<nat>, stop: nat, provider: Provider, k: nat)
    requires k <= |targets|
    ensures var n := DoneFrom(targets, stop, provider, k);
            && (forall j | k <= j < n :: j != stop && !provider(targets[j]).Cancelled?)
            && (n < |targets| ==> n == stop || provider(targets[n]).Cancelled?)
    decreases |targets| - k
  {
    if k < |targets| && k != stop && !provider(targets[k]).Cancelled? {
      DoneIs(targets, stop, provider, k + 1);
    }
  }

  /** The records after the first k targets: one more for each that was generated. */
  function Progress(task: nat, records: seq<Record>, targets: seq<nat>, provider: Provider, k: nat): seq<Record>
    requires k <= |targets|
  {
    if k == 0 then records
    else
      var before, i := Progress(task, records, targets, provider, k - 1), targets[k - 1];
      if provider(i).Generated? then Merge(before, RecordOf(task, i, Made(provider(i)))) else before
  }

  /** No restored segment lies in the place of another one. */
  ghost predicate InPlace(task: nat, restored: map<nat, Restored>) {
    forall i | i in restored && restored[i].path.File? && restored[i].path.task == task :: restored[i].path.index == i
  }

  function SegmentOf(r: Restored): Segment {
    Segment(r.ids, r.duration)
  }

  /** The file of one of these segments in the task's directory. */
  predicate IsOwn(p: Path, task: nat, indices: set<nat>) {
    p.File? && p.task == task && p.index in indices
  }

  /** Files are added or replaced only in the places of these segments. */
  ghost predicate OnlyOwn(task: nat, indices: set<nat>, disk: Disk, disk': Disk) {
    && (forall p | p in disk' :: p in disk || IsOwn(p, task, indices))
    && (forall p | p in disk :: p in disk')
    && forall p | p in disk && !IsOwn(p, task, indices) :: disk'[p] == disk[p]
  }

  lemma OneMoreOwn(task: nat, indices: set<nat>, disk: Disk, disk': Disk, i: nat, content: Content)
    requires OnlyOwn(task, indices, disk, disk')
    ensures OnlyOwn(task, indices + {i}, disk, disk'[File(task, i) := content]) && OnlyOwn(task, indices + {i}, disk, disk')
  {
  }

  /** The restored segments below n are in place; nothing else has changed. */
  ghost predicate RestoredBelow(task: nat, restored: map<nat, Restored>, disk: Disk, n: nat,
                                segments: map<nat, Segment>, disk': Disk)
  {
    && (forall i :: i in segments <==> i in restored && i < n)
    && (forall i | i in segments :: segments[i] == SegmentOf(restored[i]) && File(task, i) in disk')
    && OnlyOwn(task, segments.Keys, disk, disk')
  }

  /** Restored segments below n have their contents in the task's directory. */
  ghost predicate ContentsBelow(task: nat, restored: map<nat, Restored>, disk: Disk, n: nat, disk': Disk)
    requires forall i | i in restored :: restored[i].path in disk
  {
    forall i | i in restored && i < n :: File(task, i) in disk' && disk'[File(task, i)] == disk[restored[i].path]
  }

  lemma CopyOne(task: nat, restored: map<nat, Restored>, disk: Disk, i: nat, segments: map<nat, Segment>, disk': Disk)
    requires i in restored && restored[i].path in disk && RestoredBelow(task, restored, disk, i, segments, disk')
    ensures restored[i].path in disk'
    ensures RestoredBelow(task, restored, disk, i + 1, segments[i := SegmentOf(restored[i])],
                          disk'[File(task, i) := disk'[restored[i].path]])
  {
    var segments' := segments[i := SegmentOf(restored[i])];
    OneMoreOwn(task, segments.Keys, disk, disk', i, disk'[restored[i].path]);
    assert segments'.Keys == segments.Keys + {i};
  }

  /** A segment in its own place is not overwritten before it is restored. */
  lemma CopyContents(task: nat, restored: map<nat, Restored>, disk: Disk, i: nat, segments: map<nat, Segment>, disk': Disk)
    requires forall j | j in restored :: restored[j].path in disk
    requires RestoredBelow(task, restored, disk, i, segments, disk') && ContentsBelow(task, restored, disk, i, disk')
    requires InPlace(task, restored) && i in restored
    ensures restored[i].path in disk'
    ensures ContentsBelow(task, restored, disk, i + 1, disk'[File(task, i) := disk'[restored[i].path]])
  {
    assert !IsOwn(restored[i].path, task, segments.Keys);
  }

  /** Copies every restored segment to its own place, in the order of the indices. */
  method Restore(task: nat, restored: map<nat, Restored>, count: nat, disk: Disk)
    returns (segments: map<nat, Segment>, disk': Disk)
    requires forall i | i in restored :: 1 <= i <= count && restored[i].path in disk
    ensures RestoredBelow(task, restored, disk, count + 1, segments, disk')
    ensures InPlace(task, restored) ==> ContentsBelow(task, restored, disk, count + 1, disk')
  {
    segments, disk' := map[], disk;
    for i := 1 to count + 1
      invariant RestoredBelow(task, restored, disk, i, segments, disk')
      invariant InPlace(task, restored) ==> ContentsBelow(task, restored, disk, i, disk')
    {
      if i in restored {
        CopyOne(task, restored, disk, i, segments, disk');
        if InPlace(task, restored) {
          CopyContents(task, restored, disk, i, segments, disk');
        }
        var source := restored[i].path;
        if source != File(task, i) {
          disk' := disk'[File(task, i) := disk'[source]];
        } else {
          assert disk'[File(task, i) := disk'[source]] == disk';
        }
        segments := segments[i := SegmentOf(restored[i])];
      }
    }
  }

  /** What is there after some targets were done: restored segments as they were, and a
      target if the provider generated it. */
  ghost predicate GenerateResult(task: nat, tried: seq<nat>, provider: Provider, restored: map<nat, Segment>, disk: Disk,
                                 segments: map<nat, Segment>, disk': Disk)
  {
    && (forall i | i in tried :: i !in restored)
    && (forall i :: i in segments <==> i in restored || (i in tried && provider(i).Generated?))
    && (forall i | i in segments :: segments[i] == if i in tried then Made(provider(i)) else restored[i])
    && OnlyOwn(task, segments.Keys - restored.Keys, disk, disk')
    && forall i | i in tried && provider(i).Generated? :: File(task, i) in disk' && disk'[File(task, i)] == provider(i).content
  }

  lemma TriedOne(task: nat, tried: seq<nat>, i: nat, provider: Provider, restored: map<nat, Segment>, disk: Disk,
                 segments: map<nat, Segment>, disk': Disk)
    requires GenerateResult(task, tried, provider, restored, disk, segments, disk') && i !in restored
    ensures if provider(i).Generated?
            then GenerateResult(task, tried + [i], provider, restored, disk, segments[i := Made(provider(i))],
                                disk'[File(task, i) := provider(i).content])
            else GenerateResult(task, tried + [i], provider, restored, disk, segments, disk')
  {
    if provider(i).Generated? {
      var segments' := segments[i := Made(provider(i))];
      OneMoreOwn(task, segments.Keys - restored.Keys, disk, disk', i, provider(i).content);
      assert segments'.Keys - restored.Keys == segments.Keys - restored.Keys + {i};
    }
  }

  lemma MoreTried(targets: seq<nat>, k: nat)
    requires k < |targets|
    ensures targets[..k + 1] == targets[..k] + [targets[k]]
  {
  }

  /** The loop over the targets: a failure is noted and the next target is tried; a
      cancellation leaves everything as it is. */
  method Generate(task: nat, targets: seq<nat>, stop: nat, provider: Provider, restored: map<nat, Segment>, disk: Disk,
                  records: seq<Record>)
    returns (segments: map<nat, Segment>, disk': Disk, records': seq<Record>, calls: seq<nat>, ended: bool)
    requires forall i | i in targets :: i !in restored
    ensures GenerateResult(task, targets[..Done(targets, stop, provider)], provider, restored, disk, segments, disk')
    ensures records' == Progress(task, records, targets, provider, Done(targets, stop, provider))
    ensures calls == Called(targets, stop, provider)
    ensures ended <==> Done(targets, stop, provider) == |targets|
  {
    segments, disk', records', calls := restored, disk, records, [];
    for k := 0 to |targets|
      invariant Done(targets, stop, provider) == DoneFrom(targets, stop, provider, k)
      invariant calls == targets[..k] && records' == Progress(task, records, targets, provider, k)
      invariant GenerateResult(task, targets[..k], provider, restored, disk, segments, disk')
    {
      if k == stop {
        assert Done(targets, stop, provider) == k;
        return segments, disk', records', calls, false;
      }
      var i := targets[k];
      MoreTried(targets, k);
      assert i in targets;
      TriedOne(task, targets[..k], i, provider, restored, disk, segments, disk');
      calls := calls + [i];
      match provider(i) {
        case Cancelled =>
          assert Done(targets, stop, provider) == k;
          return segments, disk', records', calls, false;
        case Failed =>
        case Generated(content, ids, duration) =>
          disk' := disk'[File(task, i) := content];
          segments := segments[i := Made(provider(i))];
          records' := Merge(records', RecordOf(task, i, segments[i]));
      }
    }
    ended := true;
  }

  /** The outcome of a run in which some targets were done: restored segments but the one to
      regenerate are as they were, and a target is there if the provider generated it. */
  ghost predicate RunResult(found: map<nat, Restored>, regenerate: nat, tried: seq<nat>, provider: Provider,
                            segments: map<nat, Segment>)
  {
    && (forall i | i in tried :: i == regenerate || i !in found)
    && (forall i :: i in segments <==> (i in found && i != regenerate) || (i in tried && provider(i).Generated?))
    && forall i | i in segments :: segments[i] == if i in tried then Made(provider(i)) else SegmentOf(found[i])
  }

  /** The files of the segments are in the task's directory, and nothing else has changed. */
  ghost predicate FilesThere(task: nat, segments: map<nat, Segment>, disk: Disk, disk': Disk) {
    && (forall i | i in segments :: File(task, i) in disk')
    && OnlyOwn(task, segments.Keys, disk, disk')
  }

  /** The targets a run gets done. */
  function Tried(found: map<nat, Restored>, count: nat, regenerate: nat, stop: nat, provider: Provider): seq<nat> {
    var targets := Targets(found, count, regenerate);
    targets[..Done(targets, stop, provider)]
  }

  /** The records in the row of a run, which started with these ones. */
  function Recorded(task: nat, records: seq<Record>, found: map<nat, Restored>, count: nat, regenerate: nat, stop: nat,
                    provider: Provider): seq<Record>
  {
    var targets := Targets(found, count, regenerate);
    Progress(task, records, targets, provider, Done(targets, stop, provider))
  }

  lemma OnlyOwnTwice(task: nat, a: set<nat>, b: set<nat>, disk: Disk, disk0: Disk, disk': Disk)
    requires OnlyOwn(task, a, disk, disk0) && OnlyOwn(task, b, disk0, disk')
    ensures OnlyOwn(task, a + b, disk, disk')
  {
  }

  lemma RunSegments(task: nat, found: map<nat, Restored>, count: nat, regenerate: nat, provider: Provider, disk: Disk,
                    done: map<nat, Segment>, disk0: Disk, tried: seq<nat>, segments: map<nat, Segment>, disk': Disk)
    requires forall i | i in found :: 1 <= i <= count && found[i].path in disk
    requires forall i | i in tried :: i == regenerate || i !in found
    requires RestoredBelow(task, found - {regenerate}, disk, count + 1, done, disk0)
    requires GenerateResult(task, tried, provider, done, disk0, segments, disk')
    ensures RunResult(found, regenerate, tried, provider, segments)
    ensures FilesThere(task, segments, disk, disk')
  {
    forall i | i in segments
      ensures File(task, i) in disk'
    {
      if i !in tried {
        assert i in done && File(task, i) in disk0;
      }
    }
    OnlyOwnTwice(task, done.Keys, segments.Keys - done.Keys, disk, disk0, disk');
    assert done.Keys + (segments.Keys - done.Keys) == segments.Keys;
  }

  /** The restored segments but the one to regenerate have their contents in the task's directory. */
  ghost predicate ContentsKept(task: nat, found: map<nat, Restored>, regenerate: nat, disk: Disk, disk': Disk)
    requires forall i | i in found :: found[i].path in disk
  {
    forall i | i in found && i != regenerate :: File(task, i) in disk' && disk'[File(task, i)] == disk[found[i].path]
  }

  lemma RunContents(task: nat, found: map<nat, Restored>, count: nat, regenerate: nat, provider: Provider, disk: Disk,
                    done: map<nat, Segment>, disk0: Disk, tried: seq<nat>, segments: map<nat, Segment>, disk': Disk)
    requires forall i | i in found :: 1 <= i <= count && found[i].path in disk
    requires done.Keys == found.Keys - {regenerate} && ContentsBelow(task, found - {regenerate}, disk, count + 1, disk0)
    requires GenerateResult(task, tried, provider, done, disk0, segments, disk')
    ensures ContentsKept(task, found, regenerate, disk, disk')
  {
    forall i | i in found && i != regenerate
      ensures File(task, i) in disk' && disk'[File(task, i)] == disk[found[i].path]
    {
      assert i in found - {regenerate} && i in done;
      assert !IsOwn(File(task, i), task, segments.Keys - done.Keys);
    }
  }

  /** The calls of a run, the segments it has, what its row records, and its result. */
  ghost predicate RunDoes(task: nat, found: map<nat, Restored>, count: nat, regenerate: nat, stop: nat, provider: Provider,
                          records: seq<Record>, segments: map<nat, Segment>, calls: seq<nat>, disk': Disk,
                          records': seq<Record>, result: Option<Checkpoint>)
  {
    var targets, tried := Targets(found, count, regenerate), Tried(found, count, regenerate, stop, provider);
    && RunResult(found, regenerate, tried, provider, segments)
    && calls == Called(targets, stop, provider)
    && records' == Recorded(task, records, found, count, regenerate, stop, provider)
    && result == (if Returns(targets, stop, provider) then Some(Encode(task, segments, disk', count)) else None)
    && forall i | i in tried && provider(i).Generated? :: File(task, i) in disk' && disk'[File(task, i)] == provider(i).content
  }

  lemma SegmentsInRange(found: map<nat, Restored>, count: nat, regenerate: nat, tried: seq<nat>, provider: Provider,
                        segments: map<nat, Segment>)
    requires RunResult(found, regenerate, tried, provider, segments)
    requires (forall i | i in found :: 1 <= i <= count) && forall i | i in tried :: 1 <= i <= count
    ensures forall i | i in segments :: 1 <= i <= count
  {
  }

  lemma TriedInRange(found: map<nat, Restored>, count: nat, regenerate: nat, stop: nat, provider: Provider)
    requires regenerate <= count
    ensures forall i | i in Tried(found, count, regenerate, stop, provider) ::
              1 <= i <= count && (i == regenerate || i !in found)
  {
    assert forall i | i in Tried(found, count, regenerate, stop, provider) :: i in Targets(found, count, regenerate);
  }

  lemma RunIs(task: nat, found: map<nat, Restored>, count: nat, regenerate: nat, stop: nat, provider: Provider, disk: Disk,
              done: map<nat, Segment>, disk0: Disk, segments: map<nat, Segment>, disk': Disk)
    requires regenerate <= count && forall i | i in found :: 1 <= i <= count && found[i].path in disk
    requires RestoredBelow(task, found - {regenerate}, disk, count + 1, done, disk0)
    requires InPlace(task, found - {regenerate}) ==> ContentsBelow(task, found - {regenerate}, disk, count + 1, disk0)
    requires GenerateResult(task, Tried(found, count, regenerate, stop, provider), provider, done, disk0, segments, disk')
    ensures RunResult(found, regenerate, Tried(found, count, regenerate, stop, provider), provider, segments)
    ensures FilesThere(task, segments, disk, disk') && forall i | i in segments :: 1 <= i <= count
    ensures InPlace(task, found) ==> ContentsKept(task, found, regenerate, disk, disk')
  {
    var tried := Tried(found, count, regenerate, stop, provider);
    TriedInRange(found, count, regenerate, stop, provider);
    RunSegments(task, found, count, regenerate, provider, disk, done, disk0, tried, segments, disk');
    SegmentsInRange(found, count, regenerate, tried, provider, segments);
    if InPlace(task, found) {
      assert InPlace(task, found - {regenerate});
      RunContents(task, found, count, regenerate, provider, disk, done, disk0, tried, segments, disk');
    }
  }

  /** Drops the segment to regenerate, restores the others, and generates the targets until
      the run stops. */
  method RunTargets(task: nat, found: map<nat, Restored>, count: nat, regenerate: nat, stop: nat, provider: Provider, disk: Disk,
                    records: seq<Record>)
    returns (segments: map<nat, Segment>, calls: seq<nat>, disk': Disk, records': seq<Record>, result: Option<Checkpoint>, ok: bool)
    requires regenerate <= count
    requires forall i | i in found :: 1 <= i <= count && found[i].path in disk
    ensures RunDoes(task, found, count, regenerate, stop, provider, records, segments, calls, disk', records', result)
    ensures FilesThere(task, segments, disk, disk') && forall i | i in segments :: 1 <= i <= count
    ensures ok <==> result.Some? && forall i | 1 <= i <= count :: i in segments
    ensures InPlace(task, found) ==> ContentsKept(task, found, regenerate, disk, disk')
  {
    var restored := found - {regenerate};
    var done, disk0 := Restore(task, restored, count, disk);
    var targets := if regenerate > 0 then [regenerate] else MissingUpTo(restored, count);
    assert regenerate == 0 ==> restored == found;
    var ended;
    segments, disk', records', calls, ended := Generate(task, targets, stop, provider, done, disk0, records);
    RunIs(task, found, count, regenerate, stop, provider, disk, done, disk0, segments, disk');
    result := if ended && stop != |targets| then Some(Encode(task, segments, disk', count)) else None;
    ok := result.Some? && forall i | 1 <= i <= count :: i in segments;
  }

  /** Regenerating a segment calls for no other one and leaves all others as they were found;
      without one to regenerate, nothing that was found is called for or changed. */
  lemma OnlyTargetsChange(found: map<nat, Restored>, count: nat, regenerate: nat, stop: nat, provider: Provider,
                          segments: map<nat, Segment>)
    requires RunResult(found, regenerate, Tried(found, count, regenerate, stop, provider), provider, segments)
    ensures var calls := Called(Targets(found, count, regenerate), stop, provider);
            && |calls| <= (if regenerate > 0 then 1 else count)
            && (forall i | i in calls :: if regenerate > 0 then i == regenerate else 1 <= i <= count && i !in found)
            && (forall j, k | 0 <= j < k < |calls| :: calls[j] < calls[k])
    ensures forall i | i != regenerate && i in found :: i in segments && segments[i] == SegmentOf(found[i])
    ensures forall i | i in segments && i !in found && regenerate > 0 :: i == regenerate
  {
    var targets := Targets(found, count, regenerate);
    var calls := Called(targets, stop, provider);
    assert forall i | i in calls :: i in targets;
    assert calls <= targets;
    MissingSize(found, count);
  }

  lemma {:induction false} MissingSize(found: map<nat, Restored>, n: nat)
    ensures |MissingUpTo(found, n)| <= n
  {
    if n > 0 {
      MissingSize(found, n - 1);
    }
  }

  /** A run refuses to regenerate a segment that does not exist, before it does anything.
      Otherwise it works on its targets. It has a result unless it raises. */
  method Run(task: nat, found: map<nat, Restored>, count: nat, regenerate: nat, stop: nat, provider: Provider, disk: Disk,
             records: seq<Record>)
    returns (refused: bool, segments: map<nat, Segment>, calls: seq<nat>, disk': Disk, records': seq<Record>,
             result: Option<Checkpoint>, ok: bool)
    requires forall i | i in found :: 1 <= i <= count && found[i].path in disk
    ensures refused <==> regenerate > count
    ensures refused ==> segments == map[] && calls == [] && disk' == disk && records' == records && result == None && !ok
    ensures !refused ==>
              RunDoes(task, found, count, regenerate, stop, provider, records, segments, calls, disk', records', result)
    ensures !refused ==> FilesThere(task, segments, disk, disk') && forall i | i in segments :: 1 <= i <= count
    ensures ok <==> result.Some? && forall i | 1 <= i <= count :: i in segments
    ensures !refused && InPlace(task, found) ==> ContentsKept(task, found, regenerate, disk, disk')
  {
    refused := regenerate > count;
    if refused {
      return refused, map[], [], disk, records, None, false;
    }
    segments, calls, disk', records', result, ok := RunTargets(task, found, count, regenerate, stop, provider, disk, records);
  }
}
