/** Threads that start, stop and mark sessions, under three locks. A step takes one lock
    or does the work between two lock operations; any thread may be next. */
module SessionLocks {
  import opened Basics
  import opened Runs
  import opened SessionTable

  datatype Lock = OrphanLock | SessionLock | RegistryLock

  /** Where a thread is. Names with Want are about to take a lock. */
  datatype Pc =
    // starting a session: first the orphan sweep
    | WantSweepCheck(task: string)
    | WantSweepDecision(task: string)
    | SweepDecision(task: string)
    | WantSweepRow(task: string)
    | SweepRow(task: string)
    | SweepLeave(task: string)
    // then the reservation and the launch
    | WantReserve(task: string)
    | Reserving(task: string)
    | Launching(session: Session, saved: bool)
    | WantSave(session: Session, saved: bool)
    | Saving(session: Session, saved: bool)
    // stopping a session
    | WantPop(id: string)
    | Popping(id: string)
    | WantRemoveRow(id: string)
    | RemovingRow(id: string)
    // marking a session as standby or ready
    | WantMark(id: string)
    | Marking(id: string)
    | WantMarkRow(id: string)
    | MarkingRow(id: string)
    | Finished

  function Holds(pc: Pc): set<Lock> {
    match pc
    case WantSweepDecision(_) => {OrphanLock}
    case SweepDecision(_) => {OrphanLock, SessionLock}
    case WantSweepRow(_) => {OrphanLock}
    case SweepRow(_) => {OrphanLock, RegistryLock}
    case SweepLeave(_) => {OrphanLock}
    case Reserving(_) => {SessionLock}
    case Saving(_, _) => {RegistryLock}
    case Popping(_) => {SessionLock}
    case RemovingRow(_) => {RegistryLock}
    case Marking(_) => {SessionLock}
    case WantMarkRow(_) => {SessionLock}
    case MarkingRow(_) => {SessionLock, RegistryLock}
    case _ => {}
  }

  function Wants(pc: Pc): Option<Lock> {
    match pc
    case WantSweepCheck(_) => Some(OrphanLock)
    case WantSweepDecision(_) => Some(SessionLock)
    case WantSweepRow(_) => Some(RegistryLock)
    case WantReserve(_) => Some(SessionLock)
    case WantSave(_, _) => Some(RegistryLock)
    case WantPop(_) => Some(SessionLock)
    case WantRemoveRow(_) => Some(RegistryLock)
    case WantMark(_) => Some(SessionLock)
    case WantMarkRow(_) => Some(RegistryLock)
    case _ => None
  }

  function Rank(l: Lock): nat {
    match l
    case OrphanLock => 0
    case SessionLock => 1
    case RegistryLock => 2
  }

  datatype State = State(
    threads: map<nat, Pc>, table: Table, sweepDone: bool,
    nextToken: nat,       // session objects made so far
    removed: set<nat>,    // session objects taken out of the table so far
    sweeps: nat)          // sweeps begun so far

  /** What the world decides: displays out of reach, and whether a launch succeeds or a
      sweep has more rows. */
  datatype Choice = Choice(blocked: set<int>, goOn: bool)

  datatype Action = Begin(thread: nat, pc: Pc) | Advance(thread: nat, choice: Choice)

  const INITIAL := State(map[], map[], false, 0, {}, 0)

  predicate Entry(pc: Pc) {
    pc.WantSweepCheck? || pc.WantPop? || pc.WantMark?
  }

  predicate Free(s: State, l: Lock) {
    forall t | t in s.threads :: l !in Holds(s.threads[t])
  }

  predicate CanAdvance(s: State, t: nat) {
    && t in s.threads && s.threads[t] != Finished
    && (Wants(s.threads[t]).Some? ==> Free(s, Wants(s.threads[t]).value))
  }

  predicate Enabled(s: State, a: Action) {
    match a
    case Begin(t, pc) => t !in s.threads && Entry(pc)
    case Advance(t, _) => CanAdvance(s, t)
  }

  /** The effect of thread t at pc; it moves on to the second result. */
  function Effect(s: State, pc: Pc, c: Choice): (State, Pc) {
    match pc
    case WantSweepCheck(task) => (s, WantSweepDecision(task))
    case WantSweepDecision(task) => (s, SweepDecision(task))
    case SweepDecision(task) =>
      if SweepDue(s.table, s.sweepDone)
      then (s.(sweepDone := true, sweeps := s.sweeps + 1), WantSweepRow(task))
      else (s, SweepLeave(task))
    case WantSweepRow(task) => (s, SweepRow(task))
    case SweepRow(task) => (s, if c.goOn then WantSweepRow(task) else SweepLeave(task))
    case SweepLeave(task) => (s, WantReserve(task))
    case WantReserve(task) => (s, Reserving(task))
    case Reserving(task) =>
      var r := Reserve(s.table, task, s.nextToken, c.blocked);
      (s.(table := AfterReserve(s.table, r), nextToken := s.nextToken + 1),
       if r.Reserved? then Launching(r.session, false) else Finished)
    case Launching(session, saved) =>
      (s, if c.goOn then WantSave(session, saved) else WantPop(SessionId(session.task)))
    case WantSave(session, saved) => (s, Saving(session, saved))
    case Saving(session, saved) => (s, if saved then Finished else Launching(session, true))
    case WantPop(id) => (s, Popping(id))
    case Popping(id) =>
      (s.(table := s.table - {id}, removed := s.removed + (if id in s.table then {s.table[id].token} else {})),
       WantRemoveRow(id))
    case WantRemoveRow(id) => (s, RemovingRow(id))
    case RemovingRow(id) => (s, Finished)
    case WantMark(id) => (s, Marking(id))
    case Marking(id) => (s, if id in s.table then WantMarkRow(id) else Finished)
    case WantMarkRow(id) => (s, MarkingRow(id))
    case MarkingRow(id) => (s, Finished)
    case Finished => (s, Finished)
  }

  function Step(s: State, a: Action): State
    requires Enabled(s, a)
  {
    match a
    case Begin(t, pc) => s.(threads := s.threads[t := pc])
    case Advance(t, c) =>
      var (s', pc') := Effect(s, s.threads[t], c);
      s'.(threads := s.threads[t := pc'])
  }

  /** Every interleaving. */
  function Next(): (State, Action, State) -> bool {
    (s, a, t) => Enabled(s, a) && t == Step(s, a)
  }

  ghost predicate Reachable(s: State) {
    Reaches(Next(), INITIAL, s)
  }

  // ---- invariants

  ghost predicate MutualExclusion(s: State) {
    forall t, u, l | t in s.threads && u in s.threads && l in Holds(s.threads[t]) && l in Holds(s.threads[u]) :: t == u
  }

  /** Inside the sweep, between the decision and the release of the orphan lock. */
  predicate Sweeping(pc: Pc) {
    pc.WantSweepRow? || pc.SweepRow?
  }

  /** Behind the sweep: may reserve or has reserved. */
  predicate PastSweep(pc: Pc) {
    pc.WantReserve? || pc.Reserving? || pc.Launching? || pc.WantSave? || pc.Saving?
  }

  ghost predicate SweepFirst(s: State) {
    && s.sweeps == (if s.sweepDone then 1 else 0) && (s.nextToken > 0 ==> s.sweepDone)
    && (!s.sweepDone ==> s.table == map[] && forall t | t in s.threads :: !PastSweep(s.threads[t]))
    && (!s.sweepDone ==> forall t | t in s.threads :: !Sweeping(s.threads[t]) && !s.threads[t].SweepLeave?)
    && forall t | t in s.threads && Sweeping(s.threads[t]) ::
         s.table == map[] && forall u | u in s.threads :: !PastSweep(s.threads[u])
  }

  /** The session object a thread is launching. */
  function Launched(pc: Pc): Option<Session> {
    if pc.Launching? || pc.WantSave? || pc.Saving? then Some(pc.session) else None
  }

  ghost predicate LaunchesKept(s: State) {
    && (forall id | id in s.table :: s.table[id].token < s.nextToken && s.table[id].token !in s.removed)
    && (forall id, other | id in s.table && other in s.table && id != other :: s.table[id].token != s.table[other].token)
    && (forall k | k in s.removed :: k < s.nextToken)
    && forall t | t in s.threads && Launched(s.threads[t]).Some? :: InPlace(s, Launched(s.threads[t]).value)
  }

  /** The session object has its place in the table unless it was taken out. */
  ghost predicate InPlace(s: State, x: Session) {
    && x.token < s.nextToken && FIRST_DISPLAY <= x.display <= LAST_DISPLAY
    && (x.token !in s.removed ==> SessionId(x.task) in s.table && s.table[SessionId(x.task)] == x)
  }

  ghost predicate Inv(s: State) {
    MutualExclusion(s) && SweepFirst(s) && TableOk(s.table) && LaunchesKept(s)
  }

  /** Every lock a thread takes ranks above all it holds. */
  lemma LockOrder(pc: Pc, held: Lock)
    requires Wants(pc).Some? && held in Holds(pc)
    ensures Rank(held) < Rank(Wants(pc).value)
  {
  }

  lemma ExclusionKept(s: State, t: nat, c: Choice)
    requires MutualExclusion(s) && CanAdvance(s, t)
    ensures MutualExclusion(Step(s, Advance(t, c)))
  {
    var s' := Step(s, Advance(t, c));
    // A step takes at most the lock the thread waited for.
    var pc := s.threads[t];
    assert Holds(s'.threads[t]) <= Holds(pc) + (if Wants(pc).Some? then {Wants(pc).value} else {});
    forall v, u, l | v in s'.threads && u in s'.threads && l in Holds(s'.threads[v]) && l in Holds(s'.threads[u])
      ensures v == u
    {
      assert v != t ==> l in Holds(s.threads[v]);
      assert u != t ==> l in Holds(s.threads[u]);
    }
  }

  /** Only one thread at a time is between the decision and the release. */
  lemma SweepersHoldOrphanLock(s: State, t: nat, v: nat)
    requires MutualExclusion(s) && t in s.threads && v in s.threads
    requires Sweeping(s.threads[t]) || s.threads[t].SweepLeave? || s.threads[t].SweepDecision?
    requires Sweeping(s.threads[v])
    ensures t == v
  {
    assert OrphanLock in Holds(s.threads[t]) && OrphanLock in Holds(s.threads[v]);
  }

  lemma SweepFirstKept(s: State, t: nat, c: Choice)
    requires MutualExclusion(s) && SweepFirst(s) && CanAdvance(s, t)
    ensures SweepFirst(Step(s, Advance(t, c)))
  {
    var s' := Step(s, Advance(t, c));
    forall v | v in s.threads && v != t
      ensures s'.threads[v] == s.threads[v]
      ensures s.threads[t].SweepLeave? || s.threads[t].SweepDecision? ==> !Sweeping(s.threads[v])
    {
      if (s.threads[t].SweepLeave? || s.threads[t].SweepDecision?) && Sweeping(s.threads[v]) {
        SweepersHoldOrphanLock(s, t, v);
      }
    }
  }

  lemma TableKept(s: State, pc: Pc, c: Choice)
    requires TableOk(s.table)
    ensures TableOk(Effect(s, pc, c).0.table)
  {
    if pc.Reserving? {
      var r := Reserve(s.table, pc.task, s.nextToken, c.blocked);
      if r.Reserved? {
        assert !Taken(s.table, c.blocked, r.session.display);
      }
    }
  }

  lemma ReservingKeeps(s: State, t: nat, c: Choice)
    requires LaunchesKept(s) && CanAdvance(s, t) && s.threads[t].Reserving?
    ensures LaunchesKept(Step(s, Advance(t, c)))
  {
    var s' := Step(s, Advance(t, c));
    var r := Reserve(s.table, s.threads[t].task, s.nextToken, c.blocked);
    forall v | v in s'.threads && Launched(s'.threads[v]).Some?
      ensures InPlace(s', Launched(s'.threads[v]).value)
    {
      if v != t {
        assert s'.threads[v] == s.threads[v] && InPlace(s, Launched(s.threads[v]).value);
      }
    }
  }

  lemma PoppingKeeps(s: State, t: nat, c: Choice)
    requires LaunchesKept(s) && CanAdvance(s, t) && s.threads[t].Popping?
    ensures LaunchesKept(Step(s, Advance(t, c)))
  {
    var s' := Step(s, Advance(t, c));
    forall v | v in s'.threads && Launched(s'.threads[v]).Some?
      ensures InPlace(s', Launched(s'.threads[v]).value)
    {
      assert v != t && s'.threads[v] == s.threads[v] && InPlace(s, Launched(s.threads[v]).value);
    }
  }

  /** A reservation stays until somebody takes this very object out of the table. */
  lemma LaunchesKeptBy(s: State, t: nat, c: Choice)
    requires LaunchesKept(s) && CanAdvance(s, t)
    ensures LaunchesKept(Step(s, Advance(t, c)))
  {
    var s' := Step(s, Advance(t, c));
    if s.threads[t].Reserving? {
      ReservingKeeps(s, t, c);
    } else if s.threads[t].Popping? {
      PoppingKeeps(s, t, c);
    } else {
      assert s'.table == s.table && s'.removed == s.removed && s'.nextToken == s.nextToken;
      forall v | v in s'.threads && Launched(s'.threads[v]).Some?
        ensures InPlace(s', Launched(s'.threads[v]).value)
      {
        assert v in s.threads && Launched(s.threads[v]) == Launched(s'.threads[v]);
        assert InPlace(s, Launched(s.threads[v]).value);
      }
    }
  }

  lemma StepKeeps(s: State, a: Action)
    requires Inv(s) && Enabled(s, a)
    ensures Inv(Step(s, a))
  {
    match a {
      case Begin(t, pc) =>
        assert Holds(pc) == {};
      case Advance(t, c) =>
        ExclusionKept(s, t, c);
        SweepFirstKept(s, t, c);
        TableKept(s, s.threads[t], c);
        LaunchesKeptBy(s, t, c);
    }
  }

  lemma ReachableKept(s: State)
    requires Reachable(s)
    ensures Inv(s)
  {
    var inv := (s: State) => Inv(s);
    forall s, a, t | inv(s) && Next()(s, a, t)
      ensures inv(t)
    {
      StepKeeps(s, a);
    }
    Kept(Next(), inv, INITIAL, s);
  }

  // ---- main results over every interleaving

  /** While the sweep kills what an earlier server left behind, no session is reserved and
      no thread is beyond the sweep; and the sweep begins at most once. */
  lemma SweepAlone(s: State)
    requires Reachable(s)
    ensures s.sweeps <= 1
    ensures (exists t :: t in s.threads && Sweeping(s.threads[t])) ==>
              s.table == map[] && forall u | u in s.threads :: !PastSweep(s.threads[u])
  {
    ReachableKept(s);
  }

  /** Sessions in the table have different tasks and different displays, 90 to 139. */
  lemma SessionsApart(s: State, id: string, other: string)
    requires Reachable(s)
    requires id in s.table && other in s.table && id != other
    ensures s.table[id].task != s.table[other].task
    ensures s.table[id].display != s.table[other].display
    ensures FIRST_DISPLAY <= s.table[id].display <= LAST_DISPLAY
  {
    ReachableKept(s);
  }

  /** Two launches at the same time use different displays as long as neither of their
      session objects has been taken out of the table. */
  lemma LaunchesApart(s: State, t: nat, u: nat)
    requires Reachable(s)
    requires t in s.threads && u in s.threads
    requires Launched(s.threads[t]).Some? && Launched(s.threads[u]).Some?
    requires Launched(s.threads[t]).value.token != Launched(s.threads[u]).value.token
    requires Launched(s.threads[t]).value.token !in s.removed
    requires Launched(s.threads[u]).value.token !in s.removed
    ensures Launched(s.threads[t]).value.display != Launched(s.threads[u]).value.display
    ensures Launched(s.threads[t]).value.task != Launched(s.threads[u]).value.task
  {
    ReachableKept(s);
  }

  /** There is no deadlock: while a thread is unfinished, some thread can advance. */
  lemma NoDeadlock(s: State, t: nat)
    requires t in s.threads && s.threads[t] != Finished
    ensures exists u :: CanAdvance(s, u)
  {
    var u := t;
    // Follow the waits; each lock on the way ranks higher than the one before.
    while !CanAdvance(s, u)
      invariant u in s.threads && s.threads[u] != Finished
      decreases if Wants(s.threads[u]).Some? then 3 - Rank(Wants(s.threads[u]).value) else 0
    {
      var l := Wants(s.threads[u]).value;
      var v :| v in s.threads && l in Holds(s.threads[v]);
      if Wants(s.threads[v]).Some? {
        LockOrder(s.threads[v], l);
      }
      u := v;
    }
  }

  // ---- following one thread

  /** Something that every step keeps, like being reached from some state. */
  ghost predicate Closed(p: State -> bool) {
    Preserves(Next(), p)
  }

  lemma ByStep(p: State -> bool, s: State, a: Action)
    requires Closed(p) && p(s) && Enabled(s, a)
    ensures p(Step(s, a))
  {
    assert Next()(s, a, Step(s, a));
  }

  /** No other thread holds the lock. */
  predicate FreeFor(s: State, t: nat, l: Lock) {
    forall u | u in s.threads && u != t :: l !in Holds(s.threads[u])
  }

  const NOTHING_BLOCKED := Choice({}, false)

  /** The state with thread t at pc. */
  ghost function With(s: State, t: nat, pc: Pc): State {
    s.(threads := s.threads[t := pc])
  }

  /** What an advance of thread t from pc does to the state around it. */
  ghost predicate Moves(s: State, t: nat, pc: Pc, c: Choice, s': State, pc': Pc) {
    s'.threads == s.threads && Effect(With(s, t, pc), pc, c) == (With(s', t, pc), pc')
  }

  /** One thread advances while nobody else holds the lock it wants. */
  lemma ByAdvance(p: State -> bool, s: State, t: nat, pc: Pc, c: Choice, s': State, pc': Pc)
    requires Closed(p) && p(With(s, t, pc)) && pc != Finished && Moves(s, t, pc, c, s', pc')
    requires Wants(pc).Some? ==> FreeFor(s, t, Wants(pc).value)
    ensures p(With(s', t, pc'))
  {
    var w := With(s, t, pc);
    if Wants(pc).Some? {
      forall held | held in Holds(pc)
        ensures held != Wants(pc).value
      {
        LockOrder(pc, held);
      }
    }
    ByStep(p, w, Advance(t, c));
    assert s.threads[t := pc][t := pc'] == s.threads[t := pc'];
    assert Step(w, Advance(t, c)) == With(s', t, pc');
  }

  // ---- what a thread does while the others stand still

  /** The state after thread t alone has advanced once for every choice. */
  ghost function Alone(s: State, t: nat, goOn: seq<bool>): Option<State>
    decreases |goOn|
  {
    if goOn == [] then Some(s)
    else if !CanAdvance(s, t) then None
    else Alone(Step(s, Advance(t, Choice({}, goOn[0]))), t, goOn[1..])
  }

  /** No other thread holds a lock. */
  ghost predicate Quiet(s: State, t: nat) {
    forall l :: FreeFor(s, t, l)
  }

  lemma AloneOnce(s: State, t: nat, pc: Pc, goOn: bool, rest: seq<bool>, s': State, pc': Pc)
    requires Quiet(s, t) && pc != Finished && Moves(s, t, pc, Choice({}, goOn), s', pc')
    ensures Alone(With(s, t, pc), t, [goOn] + rest) == Alone(With(s', t, pc'), t, rest)
  {
    var w := With(s, t, pc);
    if Wants(pc).Some? {
      assert FreeFor(s, t, Wants(pc).value);
      forall held | held in Holds(pc)
        ensures held != Wants(pc).value
      {
        LockOrder(pc, held);
      }
    }
    assert ([goOn] + rest)[1..] == rest;
    assert s.threads[t := pc][t := pc'] == s.threads[t := pc'];
    assert Step(w, Advance(t, Choice({}, goOn))) == With(s', t, pc');
  }

  lemma AloneSame(s: State, t: nat, pc: Pc, goOn: bool, rest: seq<bool>, pc': Pc)
    requires Quiet(s, t) && pc != Finished && Moves(s, t, pc, Choice({}, goOn), s, pc')
    ensures Alone(With(s, t, pc), t, [goOn] + rest) == Alone(With(s, t, pc'), t, rest)
  {
    AloneOnce(s, t, pc, goOn, rest, s, pc');
  }

  /** A launch that goes well is saved, goes on, is saved again, and is finished; the table
      stays as it is. */
  lemma LaunchSavedTwice(s: State, t: nat, x: Session)
    requires Quiet(s, t)
    ensures Alone(With(s, t, Launching(x, false)), t, [true, true, true]) == Some(With(s, t, Launching(x, true)))
    ensures Alone(With(s, t, Launching(x, true)), t, [true, true, true]) == Some(With(s, t, Finished))
  {
    forall saved: bool
      ensures Alone(With(s, t, Launching(x, saved)), t, [true] + ([true] + ([true] + [])))
           == Some(With(s, t, if saved then Finished else Launching(x, true)))
    {
      AloneSame(s, t, Launching(x, saved), true, [true] + ([true] + []), WantSave(x, saved));
      AloneSame(s, t, WantSave(x, saved), true, [true] + [], Saving(x, saved));
      AloneSame(s, t, Saving(x, saved), true, [], if saved then Finished else Launching(x, true));
    }
    assert [true] + ([true] + ([true] + [])) == [true, true, true];
  }

  /** A launch that fails, before or after it was saved, takes its id out of the table and
      its row out of the registry. */
  lemma FailedLaunchStops(s: State, t: nat, x: Session, saved: bool)
    requires Quiet(s, t)
    ensures var removed := if SessionId(x.task) in s.table then {s.table[SessionId(x.task)].token} else {};
            Alone(With(s, t, Launching(x, saved)), t, [false, false, false])
            == Some(With(s.(table := s.table - {SessionId(x.task)}, removed := s.removed + removed), t, WantRemoveRow(SessionId(x.task))))
  {
    var id := SessionId(x.task);
    var s' := s.(table := s.table - {id}, removed := s.removed + (if id in s.table then {s.table[id].token} else {}));
    AloneSame(s, t, Launching(x, saved), false, [false] + ([false] + []), WantPop(id));
    AloneSame(s, t, WantPop(id), false, [false] + [], Popping(id));
    AloneOnce(s, t, Popping(id), false, [], s', WantRemoveRow(id));
    assert [false] + ([false] + ([false] + [])) == [false, false, false];
  }

  function Repeat(goOn: seq<bool>, n: nat): seq<bool> {
    if n == 0 then [] else goOn + Repeat(goOn, n - 1)
  }

  /** The sweep takes the registry lock once for every row, and goes on to the reservation
      after the last one. */
  lemma {:induction false} SweepVisitsAll(s: State, t: nat, task: string, n: nat)
    requires Quiet(s, t)
    ensures Alone(With(s, t, WantSweepRow(task)), t, Repeat([true, true], n) + [false, false, false])
         == Some(With(s, t, WantReserve(task)))
    decreases n
  {
    var end := [false, false, false];
    if n == 0 {
      assert Repeat([true, true], 0) + end == end;
      SweepLeaves(s, t, task);
    } else {
      var rest := Repeat([true, true], n - 1) + end;
      RepeatOnce(n, end);
      SweepsRow(s, t, task, rest);
      SweepVisitsAll(s, t, task, n - 1);
    }
  }

  lemma SweepsRow(s: State, t: nat, task: string, rest: seq<bool>)
    requires Quiet(s, t)
    ensures Alone(With(s, t, WantSweepRow(task)), t, [true] + ([true] + rest)) == Alone(With(s, t, WantSweepRow(task)), t, rest)
  {
    AloneSame(s, t, WantSweepRow(task), true, [true] + rest, SweepRow(task));
    AloneSame(s, t, SweepRow(task), true, rest, WantSweepRow(task));
  }

  lemma RepeatOnce(n: nat, end: seq<bool>)
    requires n > 0
    ensures Repeat([true, true], n) + end == [true] + ([true] + (Repeat([true, true], n - 1) + end))
  {
  }

  lemma SweepLeaves(s: State, t: nat, task: string)
    requires Quiet(s, t)
    ensures Alone(With(s, t, WantSweepRow(task)), t, [false, false, false]) == Some(With(s, t, WantReserve(task)))
  {
    AloneSame(s, t, WantSweepRow(task), false, [false] + ([false] + []), SweepRow(task));
    AloneSame(s, t, SweepRow(task), false, [false] + [], SweepLeave(task));
    AloneSame(s, t, SweepLeave(task), false, [], WantReserve(task));
    assert [false] + ([false] + ([false] + [])) == [false, false, false];
  }

  /** Marking goes on to the row, under the session lock, exactly for an id in the table. */
  lemma MarkWritesRow(s: State, t: nat, id: string)
    requires Quiet(s, t)
    ensures Alone(With(s, t, WantMark(id)), t, [false, false]) == Some(With(s, t, if id in s.table then WantMarkRow(id) else Finished))
  {
    AloneSame(s, t, WantMark(id), false, [false] + [], Marking(id));
    AloneSame(s, t, Marking(id), false, [], if id in s.table then WantMarkRow(id) else Finished);
    assert [false] + ([false] + []) == [false, false];
  }

  /** It holds the session lock until the row is written. */
  lemma MarkHoldsSession(s: State, t: nat, id: string)
    requires Quiet(s, t)
    ensures Holds(Marking(id)) * Holds(WantMarkRow(id)) * Holds(MarkingRow(id)) == {SessionLock}
    ensures Alone(With(s, t, WantMarkRow(id)), t, [false, false]) == Some(With(s, t, Finished))
  {
    AloneSame(s, t, WantMarkRow(id), false, [false] + [], MarkingRow(id));
    AloneSame(s, t, MarkingRow(id), false, [], Finished);
    assert [false] + ([false] + []) == [false, false];
  }

  // ---- threads that run while others wait

  /** The state once the sweep has been decided. */
  ghost function Swept(s: State): State {
    s.(sweepDone := true, sweeps := s.sweeps + (if s.sweepDone then 0 else 1))
  }

  /** Nobody else holds the locks that a start needs. */
  predicate Clear(s: State, t: nat) {
    FreeFor(s, t, OrphanLock) && FreeFor(s, t, SessionLock)
  }

  lemma ToDecision(p: State -> bool, s: State, t: nat, task: string)
    requires Closed(p) && p(s) && Clear(s, t) && t !in s.threads
    ensures p(With(s, t, SweepDecision(task)))
  {
    ByStep(p, s, Begin(t, WantSweepCheck(task)));
    ByAdvance(p, s, t, WantSweepCheck(task), NOTHING_BLOCKED, s, WantSweepDecision(task));
    ByAdvance(p, s, t, WantSweepDecision(task), NOTHING_BLOCKED, s, SweepDecision(task));
  }

  lemma ThroughSweep(p: State -> bool, s: State, t: nat, task: string)
    requires Closed(p) && p(With(s, t, SweepDecision(task))) && SweepDue(s.table, s.sweepDone) && FreeFor(s, t, RegistryLock)
    ensures p(With(Swept(s), t, SweepLeave(task)))
  {
    var done := Swept(s);
    ByAdvance(p, s, t, SweepDecision(task), NOTHING_BLOCKED, done, WantSweepRow(task));
    ByAdvance(p, done, t, WantSweepRow(task), NOTHING_BLOCKED, done, SweepRow(task));
    ByAdvance(p, done, t, SweepRow(task), NOTHING_BLOCKED, done, SweepLeave(task));
  }

  /** A new thread runs alone up to its reservation. */
  lemma ToReservation(p: State -> bool, s: State, t: nat, task: string)
    requires Closed(p) && p(s) && Clear(s, t) && t !in s.threads
    requires s.sweepDone || (s.table == map[] && FreeFor(s, t, RegistryLock))
    ensures p(With(Swept(s), t, WantReserve(task)))
  {
    ToDecision(p, s, t, task);
    if s.sweepDone {
      ByAdvance(p, s, t, SweepDecision(task), NOTHING_BLOCKED, Swept(s), SweepLeave(task));
    } else {
      ThroughSweep(p, s, t, task);
    }
    ByAdvance(p, Swept(s), t, SweepLeave(task), NOTHING_BLOCKED, Swept(s), WantReserve(task));
  }

  /** A new thread runs alone from its start to its launch. */
  lemma ToLaunch(p: State -> bool, s: State, t: nat, task: string, blocked: set<int>, x: Session)
    requires Closed(p) && p(s) && Clear(s, t) && t !in s.threads
    requires s.sweepDone || (s.table == map[] && FreeFor(s, t, RegistryLock))
    requires Reserve(s.table, task, s.nextToken, blocked) == Reserved(x) && x.task == task
    ensures p(With(Swept(s).(table := s.table[SessionId(task) := x], nextToken := s.nextToken + 1), t, Launching(x, false)))
  {
    var done := Swept(s);
    ToReservation(p, s, t, task);
    ByAdvance(p, done, t, WantReserve(task), Choice(blocked, false), done, Reserving(task));
    ByAdvance(p, done, t, Reserving(task), Choice(blocked, false),
              done.(table := s.table[SessionId(task) := x], nextToken := s.nextToken + 1), Launching(x, false));
  }

  // ---- an example: a reservation that is taken away

  /** A thread that is about to stop an id takes whatever object is there. */
  lemma ReachPop(p: State -> bool, s: State, t: nat, id: string, x: Session)
    requires Closed(p) && p(With(s, t, WantPop(id))) && FreeFor(s, t, SessionLock) && s.table == map[id := x]
    ensures p(With(s.(table := map[], removed := s.removed + {x.token}), t, WantRemoveRow(id)))
  {
    assert s.table - {id} == map[];
    ByAdvance(p, s, t, WantPop(id), NOTHING_BLOCKED, s, Popping(id));
    ByAdvance(p, s, t, Popping(id), NOTHING_BLOCKED, s.(table := map[], removed := s.removed + {x.token}), WantRemoveRow(id));
  }

  lemma FirstDisplay(task: string, token: nat)
    ensures Reserve(map[], task, token, {}) == Reserved(Session(token, task, FIRST_DISPLAY))
  {
    assert !Taken(map[], {}, FIRST_DISPLAY);
  }

  ghost function First(): Session { Session(0, "a", 90) }

  ghost function Second(): Session { Session(1, "a", 90) }

  ghost function Third(): Session { Session(2, "b", 90) }

  /** Thread 0 launches the first session. */
  ghost function FirstLaunching(): State {
    State(map[0 := Launching(First(), false)], map[SessionId("a") := First()], true, 1, {}, 1)
  }

  /** Thread 1 has stopped it, thread 0 does not know yet. */
  ghost function FirstStopped(): State {
    State(map[0 := Launching(First(), false), 1 := WantRemoveRow(SessionId("a"))], map[], true, 1, {0}, 1)
  }

  /** Thread 2 launches the task again. */
  ghost function SecondLaunching(): State {
    State(map[0 := Launching(First(), false), 1 := WantRemoveRow(SessionId("a")), 2 := Launching(Second(), false)],
          map[SessionId("a") := Second()], true, 2, {0}, 1)
  }

  /** Thread 0 has failed and cleaned up. */
  ghost function SecondEvicted(): State {
    State(map[0 := WantRemoveRow(SessionId("a")), 1 := WantRemoveRow(SessionId("a")), 2 := Launching(Second(), false)],
          map[], true, 2, {0, 1}, 1)
  }

  lemma ReachFirstStopped(p: State -> bool)
    requires Closed(p) && p(INITIAL)
    ensures p(FirstStopped())
  {
    FirstDisplay("a", 0);
    ToLaunch(p, INITIAL, 0, "a", {}, First());
    var s := FirstLaunching();
    assert With(Swept(INITIAL).(table := map[SessionId("a") := First()], nextToken := 1), 0, Launching(First(), false)) == s;
    ByStep(p, s, Begin(1, WantPop(SessionId("a"))));
    assert s.table == map[SessionId("a") := First()];
    ReachPop(p, s, 1, SessionId("a"), First());
    assert s.removed + {First().token} == {0};
    assert With(s.(table := map[], removed := s.removed + {First().token}), 1, WantRemoveRow(SessionId("a"))) == FirstStopped();
  }

  lemma ReachSecondLaunching(p: State -> bool)
    requires Closed(p) && p(INITIAL)
    ensures p(SecondLaunching())
  {
    ReachFirstStopped(p);
    var s := FirstStopped();
    FirstDisplay("a", 1);
    ToLaunch(p, s, 2, "a", {}, Second());
    assert With(s.(table := s.table[SessionId("a") := Second()], nextToken := 2), 2, Launching(Second(), false)) == SecondLaunching();
  }

  lemma ReachFirstFailing(p: State -> bool)
    requires Closed(p) && p(INITIAL)
    ensures p(With(SecondLaunching(), 0, WantPop(SessionId("a"))))
  {
    ReachSecondLaunching(p);
    var s := SecondLaunching();
    assert With(s, 0, Launching(First(), false)) == s;
    ByAdvance(p, s, 0, Launching(First(), false), NOTHING_BLOCKED, s, WantPop(SessionId("a")));
  }

  lemma ReachSecondEvicted(p: State -> bool)
    requires Closed(p) && p(INITIAL)
    ensures p(SecondEvicted())
  {
    ReachFirstFailing(p);
    var s := SecondLaunching();
    assert s.table == map[SessionId("a") := Second()];
    ReachPop(p, s, 0, SessionId("a"), Second());
    assert With(s.(table := map[], removed := s.removed + {1}), 0, WantRemoveRow(SessionId("a"))) == SecondEvicted();
  }

  /** The reservation of a launch can be taken away by an earlier start of the same task:
      it was stopped, fails later, and then stops the id again, which by now belongs to its
      successor. A third session then gets the display that is still being launched on. */
  lemma StaleStartEvicts()
    ensures exists s :: && Reachable(s) && 2 in s.threads && 3 in s.threads
                        && Launched(s.threads[2]).Some? && Launched(s.threads[3]).Some?
                        && Launched(s.threads[2]).value.task != Launched(s.threads[3]).value.task
                        && Launched(s.threads[2]).value.display == Launched(s.threads[3]).value.display
  {
    var p := ReachedFrom(Next(), INITIAL);
    ReachedKept(Next(), INITIAL);
    ReachSecondEvicted(p);
    var s := SecondEvicted();
    FirstDisplay("b", 2);
    ToLaunch(p, s, 3, "b", {}, Third());
    assert "a"[0] != "b"[0];
    var end := With(s.(table := s.table[SessionId("b") := Third()], nextToken := 3), 3, Launching(Third(), false));
    assert p(end);
    assert Reachable(end) && end.threads[2] == Launching(Second(), false);
  }
}
