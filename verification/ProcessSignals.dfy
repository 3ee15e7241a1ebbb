/** Which process a clean-up signal reaches. Processes come and go and the kernel reuses
    their numbers, while any number of cleaners check recorded identities and send
    signals. A file descriptor of a process (pidfd) keeps naming the process it was
    opened for; a number does not. Every read and every signal is a step of its own. */
module ProcessSignals {
  import opened Basics
  import opened Runs

  datatype Process = Process(pid: int, ticks: int, executable: string, args: seq<string>)

  /** One entry of process_identities in the session registry. */
  datatype Record = Record(pid: int, boot: string, ticks: int, executable: string, argv0: string, display: string)

  /** Processes are numbered in the order of their birth; holders says which one owns a
      process number now. */
  datatype World = World(boot: string, born: seq<Process>, holders: map<int, nat>)

  /** What _open_process_pidfd returned. */
  datatype Handle = NoHandle | PidFd(process: nat)

  /** Where a cleaner is between the calls of _terminate_registry_session_processes. */
  datatype Phase = Opened | StatRead(ticks: int) | Matched

  datatype Cleaner = Cleaner(record: Record, handle: Handle, faulty: bool, phase: Phase, signal: Signal)

  datatype Signal = Term | Kill

  datatype Delivery = Delivery(process: nat, record: Record, signal: Signal, faulty: bool)

  datatype State = State(world: World, records: seq<Record>, cleaners: map<nat, Cleaner>, delivered: seq<Delivery>)

  datatype Action =
    | Spawn(p: Process)
    | Exit(pid: int)
    | Exec(pid: int, executable: string, args: seq<string>)
    | Capture(pid: int, display: string)          // a session records its display server
    | Open(thread: nat, index: nat, fault: bool)  // pidfd_open; fault: refused for another reason than a missing process
    | ReadStat(thread: nat)
    | ReadRest(thread: nat)                       // command line, executable, boot id, and the comparison
    | Send(thread: nat)

  /** The last component of a path; empty components and single dots do not count. */
  function BaseName(path: string): string {
    var n := |path|;
    if n == 0 then ""
    else if path[n - 1] == '/' || path == "." || (n >= 2 && path[n - 2..] == "/.") then BaseName(path[..n - 1])
    else LastPart(path)
  }

  function LastPart(path: string): string {
    if path == "" || path[|path| - 1] == '/' then "" else LastPart(path[..|path| - 1]) + [path[|path| - 1]]
  }

  lemma {:induction false} LastPartIs(directory: string, name: string)
    requires '/' !in name && (directory == "" || directory[|directory| - 1] == '/')
    ensures LastPart(directory + name) == name
  {
    if name == "" {
      assert directory + name == directory;
    } else {
      var n := |name| - 1;
      LastPartIs(directory, name[..n]);
      assert (directory + name)[..|directory| + n] == directory + name[..n];
      assert name == name[..n] + [name[n]] && name[n] in name;
    }
  }

  /** A name has itself as its base name, whatever directory is before it. */
  lemma BaseNameIs(directory: string, name: string)
    requires name != "" && name != "." && '/' !in name && (directory == "" || directory[|directory| - 1] == '/')
    ensures BaseName(directory + name) == name
  {
    var path, n := directory + name, |name| - 1;
    LastPartIs(directory, name);
    assert path[|path| - 1] == name[n] && name[n] in name;
    assert n > 0 ==> path[|path| - 2] == name[n - 1] && name[n - 1] in name;
    assert n == 0 ==> name == [name[0]];
    assert |path| >= 2 ==> path[|path| - 2..][0] == path[|path| - 2] && path[|path| - 2..][1] == path[|path| - 1];
  }

  /** A slash or a single dot behind a path changes nothing. */
  lemma BaseNameBefore(path: string)
    ensures BaseName(path + "/") == BaseName(path + "/.") == BaseName(path)
  {
    assert (path + "/")[..|path|] == path;
    assert (path + "/.")[..|path| + 1] == path + "/" && (path + "/.")[|path|..] == "/.";
  }

  /** An X server by the base name of its command, in any case. */
  predicate IsXvnc(argv0: string) {
    var name := BaseName(argv0);
    |name| == 4 && name[0] in "Xx" && name[1] in "Vv" && name[2] in "Nn" && name[3] in "Cc"
  }

  predicate IsExpectedXvnc(p: Process, display: string) {
    p.args != [] && IsXvnc(p.args[0]) && display != "" && display in p.args && p.executable != ""
  }

  /** The checks on the record itself. */
  predicate Complete(r: Record) {
    r.pid > 1 && r.boot != "" && r.executable != "" && r.display != "" && IsXvnc(r.argv0)
  }

  predicate Enabled(s: State, a: Action) {
    match a
    case Spawn(p) =>
      // A number is free before it is reused, and not reused within one clock tick.
      && p.pid !in s.world.holders
      && forall i | 0 <= i < |s.world.born| :: s.world.born[i].pid != p.pid || s.world.born[i].ticks != p.ticks
    case Exit(pid) => pid in s.world.holders
    case Exec(pid, _, _) => pid in s.world.holders && s.world.holders[pid] < |s.world.born|
    case Capture(pid, display) => pid in s.world.holders && s.world.holders[pid] < |s.world.born|
    case Open(thread, index, _) => thread !in s.cleaners && index < |s.records|
    case ReadStat(thread) => thread in s.cleaners && s.cleaners[thread].phase.Opened?
    case ReadRest(thread) => thread in s.cleaners && s.cleaners[thread].phase.StatRead?
    case Send(thread) => thread in s.cleaners && s.cleaners[thread].phase.Matched?
  }

  /** The process that holds a number. */
  function HolderOf(w: World, pid: int): (r: Option<nat>)
    ensures r.Some? ==> r.value < |w.born|
  {
    if pid in w.holders && w.holders[pid] < |w.born| then Some(w.holders[pid]) else None
  }

  function OpenHandle(w: World, pid: int, fault: bool): Handle {
    if fault || HolderOf(w, pid).None? then NoHandle else PidFd(HolderOf(w, pid).value)
  }

  predicate Comparison(w: World, c: Cleaner) {
    var holder := HolderOf(w, c.record.pid);
    && Complete(c.record)
    && holder.Some?
    && IsExpectedXvnc(w.born[holder.value], c.record.display)
    && w.boot == c.record.boot
    && c.phase.StatRead? && c.phase.ticks == c.record.ticks
    && w.born[holder.value].executable == c.record.executable
  }

  /** The process a signal reaches; None when the call fails. */
  function Reached(w: World, c: Cleaner): Option<nat> {
    match c.handle
    case PidFd(i) => if i < |w.born| && HolderOf(w, w.born[i].pid) == Some(i) then Some(i) else None
    case NoHandle => HolderOf(w, c.record.pid)
  }

  function Step(s: State, a: Action): State
    requires Enabled(s, a)
  {
    var w := s.world;
    match a
    case Spawn(p) => s.(world := w.(born := w.born + [p], holders := w.holders[p.pid := |w.born|]))
    case Exit(pid) => s.(world := w.(holders := w.holders - {pid}))
    case Exec(pid, executable, args) =>
      var i := w.holders[pid];
      s.(world := w.(born := w.born[i := w.born[i].(executable := executable, args := args)]))
    case Capture(pid, display) =>
      var p := w.born[w.holders[pid]];
      if p.pid > 1 && w.boot != "" && IsExpectedXvnc(p, display)
      then s.(records := s.records + [Record(p.pid, w.boot, p.ticks, p.executable, p.args[0], display)])
      else s
    case Open(thread, index, fault) =>
      var r := s.records[index];
      s.(cleaners := s.cleaners[thread := Cleaner(r, OpenHandle(w, r.pid, fault), fault, Opened, Term)])
    case ReadStat(thread) =>
      var c := s.cleaners[thread];
      var holder := HolderOf(w, c.record.pid);
      if holder.None? then s.(cleaners := s.cleaners - {thread})
      else s.(cleaners := s.cleaners[thread := c.(phase := StatRead(w.born[holder.value].ticks))])
    case ReadRest(thread) =>
      var c := s.cleaners[thread];
      if Comparison(w, c) then s.(cleaners := s.cleaners[thread := c.(phase := Matched)])
      else s.(cleaners := s.cleaners - {thread})
    case Send(thread) =>
      var c := s.cleaners[thread];
      var target := Reached(w, c);
      if target.None? then s.(cleaners := s.cleaners - {thread})
      else
        var sent := s.delivered + [Delivery(target.value, c.record, c.signal, c.faulty)];
        if c.signal.Term?
        then s.(delivered := sent, cleaners := s.cleaners[thread := c.(phase := Opened, signal := Kill)])
        else s.(delivered := sent, cleaners := s.cleaners - {thread})
  }

  /** The process is the one the record was taken from. */
  ghost predicate IsRecorded(w: World, i: nat, r: Record) {
    i < |w.born| && w.born[i].pid == r.pid && w.born[i].ticks == r.ticks && w.boot == r.boot
  }

  /** A record of the current boot was taken from some process. Records of other boots,
      which a registry keeps over a restart, may say anything. */
  ghost predicate Genuine(w: World, r: Record) {
    r.boot == w.boot ==> exists i: nat :: IsRecorded(w, i, r)
  }

  /** Every interleaving. */
  function Next(): (State, Action, State) -> bool {
    (s, a, t) => Enabled(s, a) && t == Step(s, a)
  }

  ghost predicate Initial(s: State) {
    && s.cleaners == map[] && s.delivered == []
    && WorldOk(s.world)
    && forall k | 0 <= k < |s.records| :: Genuine(s.world, s.records[k])
  }

  ghost predicate WorldOk(w: World) {
    && (forall pid | pid in w.holders :: w.holders[pid] < |w.born| && w.born[w.holders[pid]].pid == pid)
    && forall i, j | 0 <= i < j < |w.born| :: w.born[i].pid != w.born[j].pid || w.born[i].ticks != w.born[j].ticks
  }

  /** As long as the recorded process is around, the handle of a fault-free cleaner names
      it. */
  ghost predicate Pinned(w: World, r: Record, h: Handle) {
    forall i: nat | IsRecorded(w, i, r) && HolderOf(w, r.pid) == Some(i) :: h == PidFd(i)
  }

  ghost predicate CleanerOk(w: World, c: Cleaner) {
    && Genuine(w, c.record) && (c.faulty ==> c.handle.NoHandle?)
    && (!c.faulty ==>
          && Pinned(w, c.record, c.handle)
          && (c.phase.StatRead? && c.phase.ticks == c.record.ticks && c.record.boot == w.boot ==>
                c.handle.PidFd? && IsRecorded(w, c.handle.process, c.record))
          && (c.phase.Matched? ==> c.handle.PidFd? && IsRecorded(w, c.handle.process, c.record)))
    && (c.phase.Matched? ==> OfThisBoot(w, c.record))
  }

  /** The record is complete and was taken since the machine started. */
  ghost predicate OfThisBoot(w: World, r: Record) {
    Complete(r) && r.boot == w.boot
  }

  ghost predicate RightTarget(w: World, d: Delivery) {
    && OfThisBoot(w, d.record) && d.process < |w.born| && w.born[d.process].pid == d.record.pid
    && (!d.faulty ==> IsRecorded(w, d.process, d.record))
  }

  ghost predicate Inv(s: State) {
    && WorldOk(s.world)
    && (forall k | 0 <= k < |s.records| :: Genuine(s.world, s.records[k]))
    && (forall t | t in s.cleaners :: CleanerOk(s.world, s.cleaners[t]))
    && forall k | 0 <= k < |s.delivered| :: RightTarget(s.world, s.delivered[k])
  }

  /** The same boot, and every process keeps its number and birth. */
  ghost predicate Later(w: World, w': World) {
    && w.boot == w'.boot && |w.born| <= |w'.born|
    && forall i | 0 <= i < |w.born| :: w'.born[i].pid == w.born[i].pid && w'.born[i].ticks == w.born[i].ticks
  }

  lemma LaterGenuine(w: World, w': World, r: Record)
    requires Later(w, w') && Genuine(w, r)
    ensures Genuine(w', r)
  {
    if r.boot == w.boot {
      var i: nat :| IsRecorded(w, i, r);
      assert IsRecorded(w', i, r);
    }
  }

  /** What the kernel does leaves every cleaner sound: a recorded process was born before
      its cleaner opened a handle, so a process born later is never the recorded one. */
  lemma LaterCleaner(w: World, w': World, c: Cleaner)
    requires WorldOk(w) && WorldOk(w') && Later(w, w') && CleanerOk(w, c)
    requires forall pid | pid in w'.holders && w'.holders[pid] < |w.born| :: HolderOf(w, pid) == Some(w'.holders[pid])
    ensures CleanerOk(w', c)
  {
    LaterGenuine(w, w', c.record);
    if !c.faulty {
      forall i: nat | IsRecorded(w', i, c.record) && HolderOf(w', c.record.pid) == Some(i)
        ensures c.handle == PidFd(i)
      {
        var j: nat :| IsRecorded(w, j, c.record);
        assert w'.born[j].pid == w'.born[i].pid && w'.born[j].ticks == w'.born[i].ticks;
        assert i == j;
        assert IsRecorded(w, i, c.record) && HolderOf(w, c.record.pid) == Some(i);
      }
    }
  }

  lemma KernelKeeps(s: State, w': World)
    requires Inv(s) && WorldOk(w') && Later(s.world, w')
    requires forall pid | pid in w'.holders && w'.holders[pid] < |s.world.born| :: HolderOf(s.world, pid) == Some(w'.holders[pid])
    ensures Inv(s.(world := w'))
  {
    forall k | 0 <= k < |s.records|
      ensures Genuine(w', s.records[k])
    {
      LaterGenuine(s.world, w', s.records[k]);
    }
    forall t | t in s.cleaners
      ensures CleanerOk(w', s.cleaners[t])
    {
      LaterCleaner(s.world, w', s.cleaners[t]);
    }
    forall k | 0 <= k < |s.delivered|
      ensures RightTarget(w', s.delivered[k])
    {
      assert RightTarget(s.world, s.delivered[k]);
    }
  }

  lemma CleanerSteps(s: State, thread: nat)
    requires Inv(s) && thread in s.cleaners
    ensures Enabled(s, ReadStat(thread)) ==> Inv(Step(s, ReadStat(thread)))
    ensures Enabled(s, ReadRest(thread)) ==> Inv(Step(s, ReadRest(thread)))
    ensures Enabled(s, Send(thread)) ==> Inv(Step(s, Send(thread)))
  {
    var c := s.cleaners[thread];
    assert CleanerOk(s.world, c);
    var holder := HolderOf(s.world, c.record.pid);
    if c.phase.Opened? && holder.Some? && c.record.boot == s.world.boot && s.world.born[holder.value].ticks == c.record.ticks {
      assert IsRecorded(s.world, holder.value, c.record);
    }
  }

  /** Every action keeps the invariant. */
  lemma StepKeeps(s: State, a: Action)
    requires Inv(s) && Enabled(s, a)
    ensures Inv(Step(s, a))
  {
    var w, s' := s.world, Step(s, a);
    match a {
      case Spawn(p) =>
        KernelKeeps(s, s'.world);
      case Exit(pid) =>
        KernelKeeps(s, s'.world);
      case Exec(pid, executable, args) =>
        KernelKeeps(s, s'.world);
      case Capture(pid, display) =>
        var i := w.holders[pid];
        if s' != s {
          assert IsRecorded(w, i, s'.records[|s.records|]);
        }
      case Open(thread, index, fault) =>
        var r := s.records[index];
        assert CleanerOk(w, s'.cleaners[thread]);
      case ReadStat(thread) =>
        CleanerSteps(s, thread);
      case ReadRest(thread) =>
        CleanerSteps(s, thread);
      case Send(thread) =>
        CleanerSteps(s, thread);
    }
  }

  ghost predicate Reachable(s: State) {
    exists s0 :: Initial(s0) && Reaches(Next(), s0, s)
  }

  lemma ReachableKept(s: State)
    requires Reachable(s)
    ensures Inv(s)
  {
    var s0 :| Initial(s0) && Reaches(Next(), s0, s);
    var inv := (s: State) => Inv(s);
    forall s, a, t | inv(s) && Next()(s, a, t)
      ensures inv(t)
    {
      StepKeeps(s, a);
    }
    Kept(Next(), inv, s0, s);
  }

  /** In every interleaving of births, exits, reuse of numbers, captures and cleaners, a
      signal reaches the process whose boot, number and birth were recorded, unless
      pidfd_open was refused although the process existed or is not supported. A cleaner
      that found no process sends nothing, although it has no handle either. */
  lemma SignalsReachRecorded(s: State, d: nat)
    requires Reachable(s) && d < |s.delivered| && !s.delivered[d].faulty
    ensures IsRecorded(s.world, s.delivered[d].process, s.delivered[d].record)
  {
    ReachableKept(s);
    assert RightTarget(s.world, s.delivered[d]);
  }

  /** Without a handle, too, a signal needs a complete record of this boot and reaches a
      process with the recorded number, which is never 1 or below. */
  lemma SignalsReachNumber(s: State, d: nat)
    requires Reachable(s) && d < |s.delivered|
    ensures var x := s.delivered[d];
            && x.record.boot == s.world.boot && x.record.display != "" && IsXvnc(x.record.argv0)
            && x.process < |s.world.born| && s.world.born[x.process].pid == x.record.pid > 1
  {
    ReachableKept(s);
    assert RightTarget(s.world, s.delivered[d]);
  }

  // ---- what a cleaner does when nothing comes between its steps

  /** The cleaner goes on after the comparison exactly when the process that has the number
      now is what the record says. */
  lemma ComparesAll(s: State, thread: nat, i: nat)
    requires Inv(s) && Enabled(s, ReadRest(thread)) && HolderOf(s.world, s.cleaners[thread].record.pid) == Some(i)
    ensures var r, p, t := s.cleaners[thread].record, s.world.born[i], Step(s, ReadRest(thread));
            if && r.pid > 1 && r.boot == s.world.boot != "" && r.display != "" && IsXvnc(r.argv0)
               && s.cleaners[thread].phase.ticks == r.ticks && p.executable == r.executable != ""
               && p.args != [] && IsXvnc(p.args[0]) && r.display in p.args
            then t == s.(cleaners := s.cleaners[thread := s.cleaners[thread].(phase := Matched)])
            else t == s.(cleaners := s.cleaners - {thread})
  {
  }

  /** Does one action after the other. */
  ghost function Run(s: State, actions: seq<Action>): Option<State>
    decreases |actions|
  {
    if actions == [] then Some(s)
    else if !Enabled(s, actions[0]) then None
    else Run(Step(s, actions[0]), actions[1..])
  }

  /** One signal: both reads, the comparison, and the call. */
  ghost function Signals(thread: nat): seq<Action> {
    [ReadStat(thread), ReadRest(thread), Send(thread)]
  }

  ghost predicate Answers(w: World, i: nat, r: Record) {
    && i < |w.born| && HolderOf(w, r.pid) == Some(i) && IsRecorded(w, i, r) && Complete(r)
    && w.born[i].executable == r.executable && IsExpectedXvnc(w.born[i], r.display)
  }

  lemma SignalArrives(s: State, thread: nat, i: nat)
    requires Inv(s) && thread in s.cleaners && s.cleaners[thread].phase.Opened? && s.cleaners[thread].handle == PidFd(i)
    requires Answers(s.world, i, s.cleaners[thread].record)
    ensures var c := s.cleaners[thread];
            var delivered := s.delivered + [Delivery(i, c.record, c.signal, c.faulty)];
            Run(s, Signals(thread)) ==
            Some(if c.signal.Term? then s.(delivered := delivered, cleaners := s.cleaners[thread := c.(signal := Kill)])
                 else s.(delivered := delivered, cleaners := s.cleaners - {thread}))
  {
    var c := s.cleaners[thread];
    var s1 := Step(s, ReadStat(thread));
    assert s1.cleaners[thread] == c.(phase := StatRead(c.record.ticks));
    var s2 := Step(s1, ReadRest(thread));
    assert s2.cleaners[thread] == c.(phase := Matched);
    var s3 := Step(s2, Send(thread));
    assert Signals(thread)[1..] == [ReadRest(thread), Send(thread)];
    assert Signals(thread)[1..][1..] == [Send(thread)];
    assert [Send(thread)][1..] == [];
    assert Run(s3, []) == Some(s3);
    assert Run(s2, [Send(thread)]) == Some(s3);
    assert Run(s1, [ReadRest(thread), Send(thread)]) == Some(s3);
    if c.signal.Term? {
      assert s3.cleaners == s.cleaners[thread := c.(signal := Kill)];
    } else {
      assert s3.cleaners == s.cleaners - {thread};
    }
  }

  /** A display server that is recorded and then cleaned up gets both signals, the polite one
      first; any other process is not even recorded. */
  lemma RecordedIsTerminated(s: State, thread: nat, pid: int, display: string) returns (s1: State, s2: State)
    requires Inv(s) && thread !in s.cleaners && pid in s.world.holders
    ensures var w, i := s.world, s.world.holders[pid];
            var p, recorded := w.born[i], Step(s, Capture(pid, display));
            if pid > 1 && w.boot != "" && IsExpectedXvnc(p, display) then
              var r := Record(pid, w.boot, p.ticks, p.executable, p.args[0], display);
              && recorded == s.(records := s.records + [r])
              && s1 == Step(recorded, Open(thread, |s.records|, false))
              && Run(s1, Signals(thread)) == Some(s2)
              && Run(s2, Signals(thread)) ==
                 Some(recorded.(delivered := s.delivered + [Delivery(i, r, Term, false), Delivery(i, r, Kill, false)]))
            else recorded == s
  {
    s1, s2 := s, s;
    var w, i := s.world, s.world.holders[pid];
    var p := w.born[i];
    if pid > 1 && w.boot != "" && IsExpectedXvnc(p, display) {
      var r := Record(pid, w.boot, p.ticks, p.executable, p.args[0], display);
      var recorded := Step(s, Capture(pid, display));
      StepKeeps(s, Capture(pid, display));
      StepKeeps(recorded, Open(thread, |s.records|, false));
      s1 := Step(recorded, Open(thread, |s.records|, false));
      SignalArrives(s1, thread, i);
      s2 := s1.(delivered := s.delivered + [Delivery(i, r, Term, false)],
                cleaners := s1.cleaners[thread := s1.cleaners[thread].(signal := Kill)]);
      assert CleanerOk(s2.world, s2.cleaners[thread]) by {
        assert CleanerOk(s1.world, s1.cleaners[thread]);
      }
      SignalArrives(s2, thread, i);
      assert s2.cleaners - {thread} == s.cleaners;
      assert s2.delivered + [Delivery(i, r, Kill, false)] == s.delivered + [Delivery(i, r, Term, false), Delivery(i, r, Kill, false)];
    }
  }

  // ---- what a handle is worth

  /** The signal sent by this step, if one was, reached the recorded process. */
  ghost predicate HitsRecorded(s: State, t: State) {
    |t.delivered| > |s.delivered| ==>
      IsRecorded(t.world, t.delivered[|t.delivered| - 1].process, t.delivered[|t.delivered| - 1].record)
  }

  /** Steps in which the thread does not start with another record. */
  function NextSame(thread: nat): (State, Action, State) -> bool {
    (s, a, t) => Enabled(s, a) && t == Step(s, a) && !(a.Open? && a.thread == thread)
  }

  /** Whatever happens from here on, all signals this cleaner still sends reach the recorded
      process. */
  ghost predicate Safe(s: State, thread: nat) {
    forall t | Reaches(NextSame(thread), s, t) && Enabled(t, Send(thread)) :: HitsRecorded(t, Step(t, Send(thread)))
  }

  /** The cleaner is gone, or still holds its handle of the recorded process. */
  ghost predicate HandleKept(s: State, thread: nat, r: Record, i: nat) {
    && Inv(s)
    && (thread in s.cleaners ==> s.cleaners[thread].record == r && s.cleaners[thread].handle == PidFd(i))
    && IsRecorded(s.world, i, r)
  }

  lemma HandleStep(s: State, a: Action, thread: nat, r: Record, i: nat)
    requires HandleKept(s, thread, r, i) && Enabled(s, a) && !(a.Open? && a.thread == thread)
    ensures HandleKept(Step(s, a), thread, r, i)
  {
    StepKeeps(s, a);
  }

  lemma HandleIsSafe(s: State, thread: nat)
    requires Inv(s) && thread in s.cleaners && s.cleaners[thread].phase.Matched? && s.cleaners[thread].handle.PidFd?
    ensures Safe(s, thread)
  {
    var c := s.cleaners[thread];
    assert CleanerOk(s.world, c);
    var inv := (s: State) => HandleKept(s, thread, c.record, c.handle.process);
    forall s, a, t | inv(s) && NextSame(thread)(s, a, t)
      ensures inv(t)
    {
      HandleStep(s, a, thread, c.record, c.handle.process);
    }
    forall t | Reaches(NextSame(thread), s, t) && Enabled(t, Send(thread))
      ensures HitsRecorded(t, Step(t, Send(thread)))
    {
      Kept(NextSame(thread), inv, s, t);
    }
  }

  /** A birth later than all before. */
  function LaterThan(born: seq<Process>, ticks: int): (r: int)
    ensures r > ticks && forall i | 0 <= i < |born| :: born[i].ticks < r
  {
    if born == [] then ticks + 1
    else
      var r := LaterThan(born[..|born| - 1], ticks);
      var last := born[|born| - 1].ticks;
      assert forall i | 0 <= i < |born| - 1 :: born[i] == born[..|born| - 1][i];
      if last < r then r else last + 1
  }

  /** When the recorded process is gone, another one can take its number before the signal. */
  lemma NumberTaken(s: State, thread: nat) returns (t: State)
    requires Inv(s) && thread in s.cleaners && s.cleaners[thread].phase.Matched? && s.cleaners[thread].handle.NoHandle?
    requires s.cleaners[thread].record.pid !in s.world.holders
    ensures Reaches(NextSame(thread), s, t) && Enabled(t, Send(thread)) && !HitsRecorded(t, Step(t, Send(thread)))
  {
    var c := s.cleaners[thread];
    var p := Process(c.record.pid, LaterThan(s.world.born, c.record.ticks), "", []);
    t := Step(s, Spawn(p));
    assert NextSame(thread)(s, Spawn(p), t);
    Stays(NextSame(thread), s);
    Extend(NextSame(thread), s, s, Spawn(p), t);
    assert HolderOf(t.world, c.record.pid) == Some(|s.world.born|) && t.world.born[|s.world.born|] == p;
    assert Reached(t.world, c) == Some(|s.world.born|);
  }

  lemma NoHandleIsUnsafe(s: State, thread: nat)
    requires Inv(s) && thread in s.cleaners && s.cleaners[thread].phase.Matched? && s.cleaners[thread].handle.NoHandle?
    ensures !Safe(s, thread)
  {
    var pid := s.cleaners[thread].record.pid;
    if pid !in s.world.holders {
      var t := NumberTaken(s, thread);
    } else {
      var s1 := Step(s, Exit(pid));
      StepKeeps(s, Exit(pid));
      assert NextSame(thread)(s, Exit(pid), s1);
      var t := NumberTaken(s1, thread);
      Precede(NextSame(thread), s, Exit(pid), s1, t);
    }
  }

  /** From every reachable state: a cleaner that has compared the identity is safe in every
      continuation if and only if it has a handle. */
  lemma SafeIffHandle(s: State, thread: nat)
    requires Reachable(s) && thread in s.cleaners && s.cleaners[thread].phase.Matched?
    ensures Safe(s, thread) <==> s.cleaners[thread].handle.PidFd?
  {
    ReachableKept(s);
    if s.cleaners[thread].handle.PidFd? {
      HandleIsSafe(s, thread);
    } else {
      NoHandleIsUnsafe(s, thread);
    }
  }

  // ---- an example

  /** A display server and the record of it. */
  ghost function Server(): Process {
    Process(7, 1, "/usr/bin/Xvnc", ["Xvnc", ":90"])
  }

  ghost function ServerRecord(): Record {
    Record(7, "boot", 1, "/usr/bin/Xvnc", "Xvnc", ":90")
  }

  lemma ServerMatches(c: Cleaner)
    requires c.record == ServerRecord() && c.phase == StatRead(1)
    ensures Comparison(World("boot", [Server()], map[7 := 0]), c)
  {
    BaseNameIs("", "Xvnc");
    assert "" + "Xvnc" == "Xvnc";
    assert ServerRecord().display == Server().args[1];
    assert IsExpectedXvnc(Server(), ServerRecord().display);
    assert |"boot"| > 0 && |"/usr/bin/Xvnc"| > 0 && |":90"| > 0;
  }

  lemma FaultyMatched() returns (s: State)
    ensures Reachable(s) && s.world == World("boot", [Server()], map[7 := 0]) && s.delivered == []
    ensures 0 in s.cleaners && s.cleaners[0] == Cleaner(ServerRecord(), NoHandle, true, Matched, Term)
  {
    var w := World("boot", [Server()], map[7 := 0]);
    var s0 := State(w, [ServerRecord()], map[], []);
    assert IsRecorded(w, 0, ServerRecord());
    Stays(Next(), s0);
    var s1 := Step(s0, Open(0, 0, true));
    Extend(Next(), s0, s0, Open(0, 0, true), s1);
    var s2 := Step(s1, ReadStat(0));
    Extend(Next(), s0, s1, ReadStat(0), s2);
    ServerMatches(s2.cleaners[0]);
    s := Step(s2, ReadRest(0));
    Extend(Next(), s0, s2, ReadRest(0), s);
  }

  lemma ReachStep(s: State, a: Action)
    requires Reachable(s) && Enabled(s, a)
    ensures Reachable(Step(s, a))
  {
    var s0 :| Initial(s0) && Reaches(Next(), s0, s);
    Extend(Next(), s0, s, a, Step(s, a));
  }

  /** When pidfd_open is refused, a signal can hit a process that took the number over after
      the comparison. */
  lemma FallbackCanHitAnother()
    ensures exists s :: Reachable(s) && |s.delivered| == 1 && s.delivered[0].faulty
                        && !IsRecorded(s.world, s.delivered[0].process, s.delivered[0].record)
  {
    var s := FaultyMatched();
    var other := Process(7, 2, "/bin/other", ["other"]);
    ReachStep(s, Exit(7));
    var s1 := Step(s, Exit(7));
    ReachStep(s1, Spawn(other));
    var s2 := Step(s1, Spawn(other));
    assert HolderOf(s2.world, 7) == Some(1);
    ReachStep(s2, Send(0));
    var s3 := Step(s2, Send(0));
    assert s3.delivered == [Delivery(1, ServerRecord(), Term, true)];
    assert s3.world.born[1] == other;
  }
}
