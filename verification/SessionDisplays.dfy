/** When the display of a launch is its own: exactly as long as its session object has not
    been taken out of the table. */
module SessionDisplays {
  import opened Basics
  import opened Runs
  import opened SessionTable
  import opened SessionLocks

  // ---- threads can always clear the way for a new start

  /** The sweep is over. */
  ghost predicate SweepOver(s: State) {
    s.sweepDone && forall t | t in s.threads :: !Sweeping(s.threads[t])
  }

  /** What stays true while threads clear the way. */
  ghost predicate Ready(s: State, x: Session) {
    Inv(s) && SweepOver(s) && x.token in s.removed
  }

  lemma ReadyStep(s: State, a: Action, x: Session)
    requires Ready(s, x) && Enabled(s, a)
    ensures Ready(Step(s, a), x)
  {
    StepKeeps(s, a);
  }

  /** Nobody holds the lock. */
  predicate NobodyHolds(s: State, l: Lock) {
    forall u | u in s.threads :: l !in Holds(s.threads[u])
  }

  lemma AdvanceReady(p: State -> bool, s: State, u: nat, x: Session) returns (s': State)
    requires Closed(p) && p(s) && Ready(s, x) && CanAdvance(s, u)
    ensures p(s') && Ready(s', x) && s' == Step(s, Advance(u, NOTHING_BLOCKED))
  {
    s' := Step(s, Advance(u, NOTHING_BLOCKED));
    ByStep(p, s, Advance(u, NOTHING_BLOCKED));
    ReadyStep(s, Advance(u, NOTHING_BLOCKED), x);
  }

  lemma OnlyHolder(s: State, u: nat, l: Lock)
    requires MutualExclusion(s) && u in s.threads && l in Holds(s.threads[u])
    ensures forall v | v in s.threads && v != u :: l !in Holds(s.threads[v])
  {
  }

  /** Whoever holds the registry lock can give it back. */
  lemma FreeRegistry(p: State -> bool, s: State, u: nat, x: Session) returns (s': State)
    requires Closed(p) && p(s) && Ready(s, x) && u in s.threads && s.threads[u].WantMarkRow?
    ensures p(s') && Ready(s', x) && u in s'.threads && s'.threads[u].WantMarkRow?
    ensures NobodyHolds(s', RegistryLock)
  {
    if v :| v in s.threads && RegistryLock in Holds(s.threads[v]) {
      OnlyHolder(s, v, RegistryLock);
      OnlyHolder(s, u, SessionLock);
      assert v != u && (s.threads[v].Saving? || s.threads[v].RemovingRow?);
      s' := AdvanceReady(p, s, v, x);
    } else {
      s' := s;
    }
  }

  lemma TakeRow(p: State -> bool, s: State, u: nat, x: Session) returns (s': State)
    requires Closed(p) && p(s) && Ready(s, x) && u in s.threads && s.threads[u].WantMarkRow? && NobodyHolds(s, RegistryLock)
    ensures p(s') && Ready(s', x) && u in s'.threads && s'.threads[u].MarkingRow?
  {
    s' := AdvanceReady(p, s, u, x);
  }

  lemma LeaveRow(p: State -> bool, s: State, u: nat, x: Session) returns (s': State)
    requires Closed(p) && p(s) && Ready(s, x) && u in s.threads && s.threads[u].MarkingRow?
    ensures p(s') && Ready(s', x) && NobodyHolds(s', SessionLock)
  {
    OnlyHolder(s, u, SessionLock);
    s' := AdvanceReady(p, s, u, x);
  }

  /** A thread that marks a session gets its row and finishes. */
  lemma FinishMark(p: State -> bool, s: State, u: nat, x: Session) returns (s': State)
    requires Closed(p) && p(s) && Ready(s, x) && u in s.threads && s.threads[u].WantMarkRow?
    ensures p(s') && Ready(s', x) && NobodyHolds(s', SessionLock)
  {
    var s1 := FreeRegistry(p, s, u, x);
    var s2 := TakeRow(p, s1, u, x);
    s' := LeaveRow(p, s2, u, x);
  }

  /** One step from anywhere else gives the session lock back, or goes on to the row. */
  lemma LeaveOrMark(p: State -> bool, s: State, u: nat, x: Session) returns (s': State)
    requires Closed(p) && p(s) && Ready(s, x) && u in s.threads && SessionLock in Holds(s.threads[u])
    requires !s.threads[u].WantMarkRow?
    ensures p(s') && Ready(s', x) && u in s'.threads
    ensures s'.threads[u].WantMarkRow? || NobodyHolds(s', SessionLock)
  {
    OnlyHolder(s, u, SessionLock);
    s' := AdvanceReady(p, s, u, x);
  }

  /** Whoever holds the session lock can give it back. */
  lemma FreeSession(p: State -> bool, s: State, x: Session) returns (s': State)
    requires Closed(p) && p(s) && Ready(s, x)
    ensures p(s') && Ready(s', x) && NobodyHolds(s', SessionLock)
  {
    if u :| u in s.threads && SessionLock in Holds(s.threads[u]) {
      s' := s;
      if !s.threads[u].WantMarkRow? {
        s' := LeaveOrMark(p, s, u, x);
      }
      if s'.threads[u].WantMarkRow? {
        s' := FinishMark(p, s', u, x);
      }
    } else {
      s' := s;
    }
  }

  lemma DecideSweep(p: State -> bool, s: State, u: nat, x: Session) returns (s': State)
    requires Closed(p) && p(s) && Ready(s, x) && u in s.threads && s.threads[u].WantSweepDecision? && NobodyHolds(s, SessionLock)
    ensures p(s') && Ready(s', x) && u in s'.threads && s'.threads[u].SweepDecision?
  {
    s' := AdvanceReady(p, s, u, x);
  }

  lemma SkipSweep(p: State -> bool, s: State, u: nat, x: Session) returns (s': State)
    requires Closed(p) && p(s) && Ready(s, x) && u in s.threads && s.threads[u].SweepDecision?
    ensures p(s') && Ready(s', x) && u in s'.threads && s'.threads[u].SweepLeave? && NobodyHolds(s', SessionLock)
  {
    OnlyHolder(s, u, SessionLock);
    s' := AdvanceReady(p, s, u, x);
  }

  lemma LeaveSweep(p: State -> bool, s: State, u: nat, x: Session) returns (s': State)
    requires Closed(p) && p(s) && Ready(s, x) && u in s.threads && s.threads[u].SweepLeave? && NobodyHolds(s, SessionLock)
    ensures p(s') && Ready(s', x) && NobodyHolds(s', SessionLock) && NobodyHolds(s', OrphanLock)
  {
    OnlyHolder(s, u, OrphanLock);
    s' := AdvanceReady(p, s, u, x);
  }

  /** And whoever holds the orphan lock. */
  lemma FreeOrphan(p: State -> bool, s: State, x: Session) returns (s': State)
    requires Closed(p) && p(s) && Ready(s, x) && NobodyHolds(s, SessionLock)
    ensures p(s') && Ready(s', x) && NobodyHolds(s', SessionLock) && NobodyHolds(s', OrphanLock)
  {
    s' := s;
    if u :| u in s.threads && OrphanLock in Holds(s.threads[u]) {
      if !s.threads[u].SweepLeave? {
        s' := DecideSweep(p, s', u, x);
        s' := SkipSweep(p, s', u, x);
      }
      s' := LeaveSweep(p, s', u, x);
    }
  }

  // ---- new names

  lemma {:induction false} NewThread(threads: set<nat>) returns (t: nat)
    ensures forall u | u in threads :: u < t
  {
    if u :| u in threads {
      var v := NewThread(threads - {u});
      t := if u < v then v else u + 1;
      assert forall w | w in threads :: w == u || w in threads - {u};
    } else {
      t := 0;
    }
  }

  lemma {:induction false} LongerThan(ids: set<string>) returns (n: nat)
    ensures forall id | id in ids :: |id| < n
  {
    if id :| id in ids {
      var m := LongerThan(ids - {id});
      n := if |id| < m then m else |id| + 1;
    } else {
      n := 0;
    }
  }

  lemma NewTask(table: Table) returns (task: string)
    ensures SessionId(task) !in table
  {
    var n := LongerThan(table.Keys);
    task := seq(n, _ => 'x');
    assert |SessionId(task)| > n;
  }

  // ---- a display whose session object was taken out

  /** All displays but one. */
  function AllBut(display: int): set<int> {
    set d | FIRST_DISPLAY <= d <= LAST_DISPLAY && IsOther(d, display)
  }

  predicate IsOther(d: int, display: int) {
    d != display
  }

  lemma OnlyChoice(table: Table, task: string, token: nat, display: int)
    requires SessionId(task) !in table && FIRST_DISPLAY <= display <= LAST_DISPLAY
    requires forall id | id in table :: table[id].display != display
    ensures Reserve(table, task, token, AllBut(display)) == Reserved(Session(token, task, display))
  {
    assert !Taken(table, AllBut(display), display);
  }

  /** Once it was taken out, its display can go to another session, whatever the other
      threads are doing. */
  lemma StaleDisplayTaken(s: State, t: nat, x: Session) returns (s': State, id: string)
    requires Inv(s) && t in s.threads && Launched(s.threads[t]) == Some(x) && x.token in s.removed
    ensures Reaches(Next(), s, s') && id in s'.table && s'.table[id].display == x.display && s'.table[id].token != x.token
  {
    assert PastSweep(s.threads[t]) && InPlace(s, x);
    var p := ReachedFrom(Next(), s);
    ReachedKept(Next(), s);
    var s1 := FreeSession(p, s, x);
    var s2 := FreeOrphan(p, s1, x);
    if other :| other in s2.table && s2.table[other].display == x.display {
      s', id := s2, other;
    } else {
      var u := NewThread(s2.threads.Keys);
      var task := NewTask(s2.table);
      var y := Session(s2.nextToken, task, x.display);
      OnlyChoice(s2.table, task, s2.nextToken, x.display);
      ToLaunch(p, s2, u, task, AllBut(x.display), y);
      s' := With(Swept(s2).(table := s2.table[SessionId(task) := y], nextToken := s2.nextToken + 1), u, Launching(y, false));
      id := SessionId(task);
      assert x.token < s2.nextToken;
    }
  }

  // ---- and one whose session object was not

  /** Steps that do not take the session object out of the table. */
  function NextKeeping(x: Session): (State, Action, State) -> bool {
    (s, a, t) => Enabled(s, a) && t == Step(s, a) && (x.token in t.removed ==> x.token in s.removed)
  }

  /** Whatever else happens, no other session in the table gets the display. */
  ghost predicate OwnDisplay(s: State, x: Session) {
    forall s', id | Reaches(NextKeeping(x), s, s') && id in s'.table && s'.table[id].display == x.display ::
      s'.table[id].token == x.token
  }

  ghost predicate InTable(s: State, x: Session) {
    && Inv(s) && x.token !in s.removed
    && SessionId(x.task) in s.table && s.table[SessionId(x.task)] == x
  }

  lemma InTableStep(s: State, a: Action, x: Session)
    requires InTable(s, x) && Enabled(s, a) && x.token !in Step(s, a).removed
    ensures InTable(Step(s, a), x)
  {
    StepKeeps(s, a);
  }

  lemma KeptDisplay(s: State, x: Session)
    requires InTable(s, x)
    ensures OwnDisplay(s, x)
  {
    var inv := (s: State) => InTable(s, x);
    forall s, a, t | inv(s) && NextKeeping(x)(s, a, t)
      ensures inv(t)
    {
      InTableStep(s, a, x);
    }
    forall s', id | Reaches(NextKeeping(x), s, s') && id in s'.table && s'.table[id].display == x.display
      ensures s'.table[id].token == x.token
    {
      Kept(NextKeeping(x), inv, s, s');
      assert InTable(s', x) && TableOk(s'.table);
    }
  }

  /** Once the object is out, no step takes it out. */
  lemma KeepingAnyway(s: State, s': State, x: Session)
    requires Reaches(Next(), s, s') && x.token in s.removed
    ensures Reaches(NextKeeping(x), s, s')
  {
    var path, actions :| IsPath(Next(), path, actions) && path[0] == s && path[|actions|] == s';
    var out := (s: State) => x.token in s.removed;
    forall k | 0 <= k < |actions|
      ensures NextKeeping(x)(path[k], actions[k], path[k + 1])
    {
      KeptAlong(Next(), out, path, actions, k);
      assert Next()(path[k], actions[k], path[k + 1]);
    }
    assert IsPath(NextKeeping(x), path, actions);
  }

  /** In every reachable state, the display of a launch is its own in all that may follow
      without its session object being taken out, if and only if the object has not been
      taken out already. */
  lemma OwnDisplayIff(s: State, t: nat, x: Session)
    requires Reachable(s) && t in s.threads && Launched(s.threads[t]) == Some(x)
    ensures OwnDisplay(s, x) <==> x.token !in s.removed
  {
    ReachableKept(s);
    assert InPlace(s, x);
    if x.token in s.removed {
      var s', id := StaleDisplayTaken(s, t, x);
      KeepingAnyway(s, s', x);
    } else {
      KeptDisplay(s, x);
    }
  }
}
