/** The table of live browser sessions and the critical sections on it. */
module SessionTable {
  import opened Basics

  /** token tells apart session objects that used the same id one after the other. */
  datatype Session = Session(token: nat, task: string, display: int)

  type Table = map<string, Session>

  const FIRST_DISPLAY := 90
  const LAST_DISPLAY := 139

  function SessionId(task: string): string {
    "live_" + task
  }

  /** A display number another session holds, or one that cannot be taken over: another
      X server runs on it or its socket and lock files cannot be removed. */
  predicate Taken(table: Table, blocked: set<int>, display: int) {
    display in blocked || exists id | id in table :: table[id].display == display
  }

  /** The smallest number from d that is not taken. */
  function FreeDisplay(table: Table, blocked: set<int>, d: int): (r: Option<int>)
    ensures r.Some? ==> d <= r.value <= LAST_DISPLAY && !Taken(table, blocked, r.value)
    ensures r.Some? ==> forall e | d <= e < r.value :: Taken(table, blocked, e)
    ensures r.None? ==> forall e | d <= e <= LAST_DISPLAY :: Taken(table, blocked, e)
    decreases LAST_DISPLAY + 1 - d
  {
    if d > LAST_DISPLAY then None
    else if Taken(table, blocked, d) then FreeDisplay(table, blocked, d + 1)
    else Some(d)
  }

  datatype Reservation = Existing(session: Session) | Reserved(session: Session) | NoDisplay

  function Reserve(table: Table, task: string, token: nat, blocked: set<int>): Reservation {
    if SessionId(task) in table then Existing(table[SessionId(task)])
    else
      var display := FreeDisplay(table, blocked, FIRST_DISPLAY);
      if display.None? then NoDisplay else Reserved(Session(token, task, display.value))
  }

  function AfterReserve(table: Table, r: Reservation): Table {
    if r.Reserved? then table[SessionId(r.session.task) := r.session] else table
  }

  /** A sweep is due once, and only before the first session. */
  predicate SweepDue(table: Table, sweepDone: bool) {
    !sweepDone && table == map[]
  }

  ghost predicate TableOk(table: Table) {
    && (forall id | id in table ::
          id == SessionId(table[id].task) && FIRST_DISPLAY <= table[id].display <= LAST_DISPLAY)
    && forall id, other | id in table && other in table && id != other :: table[id].display != table[other].display
  }

  class Manager {
    var table: Table
    var sweepDone: bool

    ghost predicate Valid()
      reads this
    {
      TableOk(table)
    }

    constructor ()
      ensures Valid() && table == map[] && !sweepDone
    {
      table, sweepDone := map[], false;
    }

    /** The check of the orphan sweep. */
    method BeginSweep() returns (due: bool)
      modifies this
      ensures table == old(table)
      ensures due == SweepDue(old(table), old(sweepDone))
      ensures due <==> old(table) == map[] && !old(sweepDone)
      ensures sweepDone == (old(sweepDone) || due)
    {
      if sweepDone || table != map[] {
        return false;
      }
      sweepDone := true;
      due := true;
    }

    method AllocateDisplay(blocked: set<int>) returns (display: Option<int>)
      ensures display == FreeDisplay(table, blocked, FIRST_DISPLAY)
    {
      for d := FIRST_DISPLAY to LAST_DISPLAY + 1
        invariant FreeDisplay(table, blocked, FIRST_DISPLAY) == FreeDisplay(table, blocked, d)
      {
        if d in blocked || exists id | id in table :: table[id].display == d {
          continue;
        }
        return Some(d);
      }
      display := None;
    }

    /** Looks the task up and reserves a display for it in one critical section. */
    method ReserveSession(task: string, token: nat, blocked: set<int>) returns (r: Reservation)
      requires Valid()
      modifies this
      ensures Valid()
      ensures sweepDone == old(sweepDone)
      ensures r == Reserve(old(table), task, token, blocked)
      ensures SessionId(task) in old(table) ==> r == Existing(old(table)[SessionId(task)]) && table == old(table)
      ensures SessionId(task) !in old(table) ==>
                match r
                case Existing(_) => false
                case NoDisplay =>
                  table == old(table) && forall d | FIRST_DISPLAY <= d <= LAST_DISPLAY :: Taken(old(table), blocked, d)
                case Reserved(session) =>
                  && table == old(table)[SessionId(task) := session] && session.task == task && session.token == token
                  && FIRST_DISPLAY <= session.display <= LAST_DISPLAY && !Taken(old(table), blocked, session.display)
                  && forall d | FIRST_DISPLAY <= d < session.display :: Taken(old(table), blocked, d)
    {
      var id := SessionId(task);
      if id in table {
        return Existing(table[id]);
      }
      var display := AllocateDisplay(blocked);
      if display.None? {
        return NoDisplay;
      }
      var session := Session(token, task, display.value);
      table := table[id := session];
      r := Reserved(session);
    }

    /** Stopping takes the id out of the table, whichever session object has it, and frees
        its display. */
    method Remove(id: string) returns (session: Option<Session>)
      requires Valid()
      modifies this
      ensures Valid()
      ensures sweepDone == old(sweepDone)
      ensures table == old(table) - {id}
      ensures session.None? <==> table == old(table)
      ensures session.Some? ==>
                && id in old(table) && session.value == old(table)[id]
                && forall blocked | session.value.display !in blocked :: !Taken(table, blocked, session.value.display)
    {
      session := if id in table then Some(table[id]) else None;
      table := table - {id};
    }
  }
}
