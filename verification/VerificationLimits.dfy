/** How many wrong codes can be compared with a challenge when verifiers overtake each other
    between their SELECT and their UPDATE: the limit L of failures with at most w verifiers at
    a time admits exactly L - 1 + w. */
module VerificationLimits {
  import opened Basics
  import opened Sizes
  import opened EmailChallenge
  import opened Runs
  import opened ChallengeRuns
  import opened CreationLimits

  type Readings = map<nat, Reading>

  /** The verifiers of a challenge that are under way. */
  function Verifying(readings: Readings, id: string): set<nat> {
    Where(readings, OnChallenge(id))
  }

  function OnChallenge(id: string): Reading -> bool {
    (x: Reading) => x.q.id == id
  }

  /** Those that have compared and found the code wrong. */
  function Missing(readings: Readings, id: string): set<nat> {
    Where(readings, MissedOn(id))
  }

  function MissedOn(id: string): Reading -> bool {
    (x: Reading) => x.q.id == id && x.decision.Miss?
  }

  /** At most w verifiers of the challenge at a time; one in a transaction counts while it
      runs. */
  predicate FitsVerifying(s: State, a: Action, id: string, w: nat) {
    match a
    case Verify(q) => q.id == id ==> |Verifying(s.readings, id)| < w
    case Select(_, q) => q.id == id ==> |Verifying(s.readings, id)| < w
    case _ => true
  }

  function NextVerifying(id: string, w: nat): (State, Action, State) -> bool {
    (s, a, t) => Enabled(s, a) && t == Step(s, a) && FitsVerifying(s, a, id, w)
  }

  // ---- what is counted, in every run

  ghost function FailuresOf(failures: seq<Failure>, id: string): nat {
    if failures == [] then 0
    else FailuresOf(failures[..|failures| - 1], id) + (if failures[|failures| - 1].id == id then 1 else 0)
  }

  ghost function FailuresIn(failures: seq<Failure>, email: string, after: int, until: int): nat {
    if failures == [] then 0
    else
      var f := failures[|failures| - 1];
      FailuresIn(failures[..|failures| - 1], email, after, until) + (if f.email == email && after < f.at <= until then 1 else 0)
  }

  /** The challenge existed and had not expired at that time. */
  ghost predicate Grounded(rows: seq<Row>, id: string, email: string, at: int) {
    exists i :: 0 <= i < |rows| && GroundedIn(rows[i], id, email, at)
  }

  predicate GroundedIn(r: Row, id: string, email: string, at: int) {
    r.id == id && r.email == email && r.createdAt <= at < r.expiresAt
  }

  /** An open challenge counts all its failures, a closed one may have missed some. */
  ghost predicate RowCounted(r: Row, failures: seq<Failure>) {
    && r.attempts <= FailuresOf(failures, r.id) && (IsOpen(r) ==> r.attempts == FailuresOf(failures, r.id))
    && r.consumedAt >= 0 && r.invalidatedAt >= 0
  }

  ghost predicate ReadingOk(rows: seq<Row>, x: Reading) {
    x.decision.Miss? ==> x.decision.lockAt >= 0 && Grounded(rows, x.q.id, x.q.email, x.q.now)
  }

  ghost predicate Counted(s: State) {
    && (forall i | 0 <= i < |s.rows| :: RowCounted(s.rows[i], s.failures))
    && (forall k | 0 <= k < |s.failures| :: Grounded(s.rows, s.failures[k].id, s.failures[k].email, s.failures[k].at))
    && forall t | t in s.readings :: ReadingOk(s.rows, s.readings[t])
  }

  /** The rows stay where they are and keep their core; more may follow. */
  ghost predicate Grows(rows: seq<Row>, rows': seq<Row>) {
    |rows| <= |rows'| && forall i | 0 <= i < |rows| :: SameCore(rows[i], rows'[i])
  }

  lemma GroundedKept(rows: seq<Row>, rows': seq<Row>, id: string, email: string, at: int)
    requires Grows(rows, rows') && Grounded(rows, id, email, at)
    ensures Grounded(rows', id, email, at)
  {
    var i :| 0 <= i < |rows| && GroundedIn(rows[i], id, email, at);
    assert SameCore(rows[i], rows'[i]);
    assert GroundedIn(rows'[i], id, email, at);
  }

  lemma AllGroundedKept(s: State, rows': seq<Row>)
    requires Counted(s) && Grows(s.rows, rows')
    ensures forall k | 0 <= k < |s.failures| :: Grounded(rows', s.failures[k].id, s.failures[k].email, s.failures[k].at)
    ensures forall t | t in s.readings :: ReadingOk(rows', s.readings[t])
  {
    forall k | 0 <= k < |s.failures|
      ensures Grounded(rows', s.failures[k].id, s.failures[k].email, s.failures[k].at)
    {
      GroundedKept(s.rows, rows', s.failures[k].id, s.failures[k].email, s.failures[k].at);
    }
    forall t | t in s.readings
      ensures ReadingOk(rows', s.readings[t])
    {
      var x := s.readings[t];
      assert ReadingOk(s.rows, x);
      if x.decision.Miss? {
        GroundedKept(s.rows, rows', x.q.id, x.q.email, x.q.now);
      }
    }
  }

  lemma {:induction false} NoFailuresOf(rows: seq<Row>, failures: seq<Failure>, id: string)
    requires forall k | 0 <= k < |failures| :: Grounded(rows, failures[k].id, failures[k].email, failures[k].at)
    requires forall i | 0 <= i < |rows| :: rows[i].id != id
    ensures FailuresOf(failures, id) == 0
  {
    if failures != [] {
      var f := failures[|failures| - 1];
      assert Grounded(rows, f.id, f.email, f.at);
      NoFailuresOf(rows, failures[..|failures| - 1], id);
    }
  }

  lemma AddsCounted(s: State, rows': seq<Row>, c: Creation)
    requires Counted(s) && Adds(s.rows, rows', c)
    ensures forall i | 0 <= i < |rows'| :: RowCounted(rows'[i], s.failures)
    ensures Grows(s.rows, rows')
  {
    if rows' != s.rows {
      NoFailuresOf(s.rows, s.failures, c.id);
      forall i | 0 <= i < |rows'|
        ensures RowCounted(rows'[i], s.failures)
      {
        assert i < |s.rows| ==> rows'[i] == s.rows[i];
      }
    }
  }

  /** A statement that counts nothing, and opens nothing. */
  ghost predicate Quiet(rows: seq<Row>, rows': seq<Row>) {
    && Rewritten(rows, rows')
    && forall i | 0 <= i < |rows| ::
         && rows'[i].attempts == rows[i].attempts && (IsOpen(rows'[i]) ==> IsOpen(rows[i]))
         && (rows[i].consumedAt >= 0 ==> rows'[i].consumedAt >= 0) && (rows[i].invalidatedAt >= 0 ==> rows'[i].invalidatedAt >= 0)
  }

  lemma QuietCounted(s: State, rows': seq<Row>)
    requires Counted(s) && Quiet(s.rows, rows')
    ensures Counted(s.(rows := rows'))
  {
    AllGroundedKept(s, rows');
    forall i | 0 <= i < |rows'|
      ensures RowCounted(rows'[i], s.failures)
    {
      assert SameCore(s.rows[i], rows'[i]) && RowCounted(s.rows[i], s.failures);
    }
  }

  lemma SentQuiet(rows: seq<Row>, id: string, now: int)
    requires now > 0
    ensures Quiet(rows, MarkedSent(rows, id, now))
  {
    forall i | 0 <= i < |rows|
      ensures SameCore(rows[i], MarkedSent(rows, id, now)[i])
      ensures MarkedSent(rows, id, now)[i].attempts == rows[i].attempts && (IsOpen(MarkedSent(rows, id, now)[i]) ==> IsOpen(rows[i]))
      ensures rows[i].consumedAt >= 0 ==> MarkedSent(rows, id, now)[i].consumedAt >= 0
      ensures rows[i].invalidatedAt >= 0 ==> MarkedSent(rows, id, now)[i].invalidatedAt >= 0
    {
      SentRow(rows, id, now, i);
    }
  }

  lemma FailedQuiet(rows: seq<Row>, id: string, now: int)
    requires now > 0
    ensures Quiet(rows, MarkedFailed(rows, id, now))
  {
  }

  lemma CarriedQuiet(rows: seq<Row>, id: string, d: Decision, now: int)
    requires now > 0 && !d.Miss?
    ensures Quiet(rows, Carried(rows, id, d, now))
  {
  }

  /** A failed comparison counts once, on its challenge if that is still open. */
  lemma MissCounted(s: State, q: Request, lockAt: int)
    requires Counted(s) && Grounded(s.rows, q.id, q.email, q.now) && lockAt >= 0
    ensures Counted(Finished(s, q, Miss(lockAt)))
  {
    var s' := Finished(s, q, Miss(lockAt));
    MissRows(s.rows, q, lockAt);
    AllGroundedKept(s, s'.rows);
    GroundedKept(s.rows, s'.rows, q.id, q.email, q.now);
    assert s'.failures[..|s.failures|] == s.failures;
    forall i | 0 <= i < |s'.rows|
      ensures RowCounted(s'.rows[i], s'.failures)
    {
      assert RowCounted(s.rows[i], s.failures);
    }
  }

  lemma MissRows(rows: seq<Row>, q: Request, lockAt: int)
    ensures Rewritten(rows, Carried(rows, q.id, Miss(lockAt), q.now))
    ensures var rows' := Carried(rows, q.id, Miss(lockAt), q.now);
            forall i | 0 <= i < |rows| ::
              && rows'[i].consumedAt == rows[i].consumedAt
              && rows'[i].attempts == rows[i].attempts + (if rows[i].id == q.id && IsOpen(rows[i]) then 1 else 0)
              && rows'[i].invalidatedAt == (if rows[i].id == q.id && IsOpen(rows[i]) && lockAt > 0 then lockAt else rows[i].invalidatedAt)
  {
  }

  /** What a reader has seen when it decides that the code is wrong. */
  lemma MissSeen(s: State, q: Request) returns (i: nat)
    requires Inv(s) && Counted(s) && Timely(s, q.now) && Decide(Find(s.rows, q.id), q).Miss?
    ensures i < |s.rows| && s.rows[i].id == q.id && IsOpen(s.rows[i]) && s.rows[i].attempts < MAX_ATTEMPTS
    ensures Decide(Find(s.rows, q.id), q).lockAt >= 0 && Grounded(s.rows, q.id, q.email, q.now)
  {
    var found := Find(s.rows, q.id).value;
    i :| 0 <= i < |s.rows| && s.rows[i] == found;
    assert Dated(s.rows[i], s.clock) && RowCounted(s.rows[i], s.failures);
    assert GroundedIn(s.rows[i], q.id, q.email, q.now);
  }

  lemma FinishedCounted(s: State, q: Request, d: Decision)
    requires Counted(s) && q.now > 0 && (d.Miss? ==> d.lockAt >= 0 && Grounded(s.rows, q.id, q.email, q.now))
    ensures Counted(Finished(s, q, d))
  {
    if d.Miss? {
      MissCounted(s, q, d.lockAt);
    } else {
      var rows', s' := Carried(s.rows, q.id, d, q.now), Finished(s, q, d);
      CarriedQuiet(s.rows, q.id, d, q.now);
      QuietCounted(s, rows');
      assert s'.rows == rows' && s'.failures == s.failures && s'.readings == s.readings;
    }
  }

  lemma CreationCounted(s: State, a: Action)
    requires Counted(s) && Enabled(s, a) && IsCreation(a)
    ensures Counted(Step(s, a))
  {
    match a {
      case Create(c) =>
        AddsCounted(s, Created(s.rows, c), c);
        AllGroundedKept(s, Created(s.rows, c));
      case CountEmail(thread, c) =>
        assert Step(s, a).rows == s.rows && Step(s, a).failures == s.failures && Step(s, a).readings == s.readings;
      case Proceed(thread) =>
        AddsCounted(s, Proceeded(s, thread).rows, s.creators[thread].c);
        AllGroundedKept(s, Proceeded(s, thread).rows);
    }
  }

  lemma StepCounted(s: State, a: Action)
    requires Inv(s) && Counted(s) && Enabled(s, a)
    ensures Counted(Step(s, a))
  {
    match a {
      case MarkSent(id, now) =>
        SentQuiet(s.rows, id, now);
        QuietCounted(s, MarkedSent(s.rows, id, now));
      case MarkFailed(id, now) =>
        FailedQuiet(s.rows, id, now);
        QuietCounted(s, MarkedFailed(s.rows, id, now));
      case Verify(q) =>
        if Decide(Find(s.rows, q.id), q).Miss? {
          var i := MissSeen(s, q);
        }
        FinishedCounted(s, q, Decide(Find(s.rows, q.id), q));
      case Select(thread, q) =>
        if Decide(Find(s.rows, q.id), q).Miss? {
          var i := MissSeen(s, q);
        }
      case Carry(thread) =>
        assert ReadingOk(s.rows, s.readings[thread]);
        FinishedCounted(s, s.readings[thread].q, s.readings[thread].decision);
      case _ =>
        CreationCounted(s, a);
    }
  }

  // ---- at most w verifiers at a time

  ghost predicate FailuresKept(failures: seq<Failure>, readings: Readings, id: string, w: nat) {
    && |Verifying(readings, id)| <= w
    && FailuresOf(failures, id) + |Missing(readings, id)| <= MAX_ATTEMPTS - 1 + w
  }

  lemma MissingSize(readings: Readings, id: string)
    ensures |Missing(readings, id)| <= |Verifying(readings, id)|
  {
    WhereImplies(readings, MissedOn(id), OnChallenge(id));
  }

  lemma FailureAdded(failures: seq<Failure>, f: Failure, id: string)
    ensures FailuresOf(failures + [f], id) == FailuresOf(failures, id) + (if f.id == id then 1 else 0)
  {
    assert (failures + [f])[..|failures|] == failures;
  }

  lemma VerifyStep(s: State, q: Request, id: string, w: nat)
    requires Inv(s) && Counted(s) && Timely(s, q.now) && FailuresKept(s.failures, s.readings, id, w)
    requires FitsVerifying(s, Verify(q), id, w)
    ensures FailuresKept(Finished(s, q, Decide(Find(s.rows, q.id), q)).failures, s.readings, id, w)
  {
    if Decide(Find(s.rows, q.id), q).Miss? {
      FailureAdded(s.failures, Failure(q.id, q.email, q.now), id);
      var i := MissSeen(s, q);
      assert RowCounted(s.rows[i], s.failures);
      MissingSize(s.readings, id);
    }
  }

  lemma SelectStep(s: State, thread: nat, q: Request, id: string, w: nat)
    requires Inv(s) && Counted(s) && Timely(s, q.now) && FailuresKept(s.failures, s.readings, id, w)
    requires FitsVerifying(s, Select(thread, q), id, w) && thread !in s.readings
    ensures FailuresKept(s.failures, s.readings[thread := Reading(q, Decide(Find(s.rows, q.id), q))], id, w)
  {
    var x := Reading(q, Decide(Find(s.rows, q.id), q));
    WhereAdded(s.readings, OnChallenge(id), thread, x);
    WhereAdded(s.readings, MissedOn(id), thread, x);
    if x.decision.Miss? && q.id == id {
      var i := MissSeen(s, q);
      assert RowCounted(s.rows[i], s.failures);
      MissingSize(s.readings[thread := x], id);
    }
  }

  lemma CarryStep(s: State, thread: nat, id: string, w: nat)
    requires FailuresKept(s.failures, s.readings, id, w) && thread in s.readings
    ensures FailuresKept(Finished(s, s.readings[thread].q, s.readings[thread].decision).failures, s.readings - {thread}, id, w)
  {
    var x := s.readings[thread];
    WhereRemoved(s.readings, OnChallenge(id), thread);
    WhereRemoved(s.readings, MissedOn(id), thread);
    FailureAdded(s.failures, Failure(x.q.id, x.q.email, x.q.now), id);
  }

  lemma FailuresStep(s: State, a: Action, id: string, w: nat)
    requires Inv(s) && Counted(s) && FailuresKept(s.failures, s.readings, id, w)
    requires Enabled(s, a) && FitsVerifying(s, a, id, w)
    ensures FailuresKept(Step(s, a).failures, Step(s, a).readings, id, w)
  {
    match a {
      case Verify(q) => VerifyStep(s, q, id, w);
      case Select(thread, q) => SelectStep(s, thread, q, id, w);
      case Carry(thread) => CarryStep(s, thread, id, w);
      case _ => assert Step(s, a).failures == s.failures && Step(s, a).readings == s.readings;
    }
  }

  lemma InitiallyCounted(id: string, w: nat)
    ensures Inv(INITIAL) && Counted(INITIAL) && FailuresKept(INITIAL.failures, INITIAL.readings, id, w)
  {
    assert Verifying(map[], id) == {} && Missing(map[], id) == {};
  }

  /** In all runs, an open challenge counts all its failures. */
  lemma AlwaysCounted(s: State)
    requires Reachable(s)
    ensures Inv(s) && Counted(s)
  {
    var inv := (s: State) => Inv(s) && Counted(s);
    forall s, a, t | inv(s) && Next()(s, a, t)
      ensures inv(t)
    {
      StepKeeps(s, a);
      StepCounted(s, a);
    }
    InitiallyCounted("", 0);
    Kept(Next(), inv, INITIAL, s);
  }

  /** With at most w verifiers of a challenge at a time, at most w - 1 wrong codes more than
      the limit are ever compared with it. */
  lemma FailuresBound(s: State, id: string, w: nat)
    requires Reaches(NextVerifying(id, w), INITIAL, s)
    ensures FailuresOf(s.failures, id) <= MAX_ATTEMPTS - 1 + w
    ensures forall i | 0 <= i < |s.rows| && s.rows[i].id == id :: s.rows[i].attempts <= MAX_ATTEMPTS - 1 + w
  {
    var inv := (s: State) => Inv(s) && Counted(s) && FailuresKept(s.failures, s.readings, id, w);
    forall s, a, t | inv(s) && NextVerifying(id, w)(s, a, t)
      ensures inv(t)
    {
      StepKeeps(s, a);
      StepCounted(s, a);
      FailuresStep(s, a, id, w);
    }
    InitiallyCounted(id, w);
    Kept(NextVerifying(id, w), inv, INITIAL, s);
    forall i | 0 <= i < |s.rows| && s.rows[i].id == id
      ensures s.rows[i].attempts <= MAX_ATTEMPTS - 1 + w
    {
      assert RowCounted(s.rows[i], s.failures);
    }
  }

  // ---- verifiers that all read before any of them writes

  ghost predicate AllMissed(s: State, id: string, n: nat) {
    forall t: nat | t < n :: t in s.readings && s.readings[t].q.id == id && s.readings[t].decision == Miss(0)
  }

  /** The state after verifiers 0..n have written. */
  ghost function CarryAll(s: State, n: nat): State
    requires forall t: nat | t < n :: t in s.readings
    ensures forall t | t in s.readings && t >= n ::
              t in CarryAll(s, n).readings && CarryAll(s, n).readings[t] == s.readings[t]
  {
    if n == 0 then s else Step(CarryAll(s, n - 1), Carry(n - 1))
  }

  /** Each of them counts, however many there are, and none locks the challenge. */
  lemma {:induction false} OvertakingCounts(s: State, id: string, i: nat, n: nat)
    requires i < |s.rows| && s.rows[i].id == id && UniqueIds(s.rows) && Live(s.rows[i])
    requires AllMissed(s, id, n)
    ensures |CarryAll(s, n).rows| == |s.rows|
    ensures CarryAll(s, n).rows[i].attempts == s.rows[i].attempts + n
    ensures CarryAll(s, n).rows[i].id == id && Live(CarryAll(s, n).rows[i])
  {
    if n > 0 {
      OvertakingCounts(s, id, i, n - 1);
      var before := CarryAll(s, n - 1);
      assert before.readings[n - 1] == s.readings[n - 1];
      assert CarryAll(s, n) == Step(before, Carry(n - 1));
    }
  }

  // ---- as many guesses as the bound allows

  /** The challenge in row i is open for guesses, and no verifier is under way. */
  ghost predicate Guessable(b: State, i: nat) {
    && i < |b.rows| && UniqueIds(b.rows) && b.clock > 0 && b.readings == map[]
    && var r := b.rows[i];
       && r.status == Sent && r.consumedAt == 0 && r.invalidatedAt == 0 && r.purpose in PURPOSES
       && r.attempts == 0 && r.maxAttempts == MAX_ATTEMPTS && r.expiresAt > b.clock && r.updatedAt == b.clock
  }

  /** A wrong guess at it. */
  ghost function Guess(b: State, i: nat): Request
    requires i < |b.rows|
  {
    var r := b.rows[i];
    Request(r.id, r.email, r.purpose, r.digest + "x", None, "", b.clock)
  }

  ghost function Missed(b: State, i: nat, lockAt: int): Reading
    requires i < |b.rows|
  {
    Reading(Guess(b, i), Miss(lockAt))
  }

  ghost function MissedBy(b: State, i: nat, thread: nat): Reading
    requires i < |b.rows|
  {
    Missed(b, i, 0)
  }

  ghost function Failures(b: State, i: nat, n: nat): seq<Failure>
    requires i < |b.rows|
  {
    seq(n, _ => Failure(b.rows[i].id, b.rows[i].email, b.clock))
  }

  /** The state after n failures at it, while verifiers are under way. */
  ghost function Standing(b: State, i: nat, n: nat, closedAt: int, readings: Readings): State
    requires i < |b.rows|
  {
    b.(rows := b.rows[i := b.rows[i].(attempts := n, invalidatedAt := closedAt)], readings := readings,
       failures := b.failures + Failures(b, i, n))
  }

  /** Verifiers of the challenge read and write, at most w at a time. */
  function NextGuessing(id: string, w: nat): (State, Action, State) -> bool {
    (s, a, t) => && Enabled(s, a) && t == Step(s, a)
                 && (a.Carry? || (a.Select? && a.q.id == id && |Verifying(s.readings, id)| < w))
  }

  /** Something that holds before the guesses and is kept by them. */
  ghost predicate Arriving(p: State -> bool, b: State, i: nat, w: nat) {
    Guessable(b, i) && p(b) && Preserves(NextGuessing(b.rows[i].id, w), p)
  }

  function LockAt(n: nat, now: int): int {
    if n + 1 >= MAX_ATTEMPTS then now else 0
  }

  lemma StandingUnique(b: State, i: nat, n: nat)
    requires Guessable(b, i)
    ensures UniqueIds(Standing(b, i, n, 0, map[]).rows)
  {
  }

  /** A wrong guess on the open challenge misses, and locks at the last attempt. */
  lemma GuessMisses(b: State, i: nat, n: nat)
    requires Guessable(b, i) && n < MAX_ATTEMPTS
    ensures Decide(Find(Standing(b, i, n, 0, map[]).rows, b.rows[i].id), Guess(b, i)) == Miss(LockAt(n, b.clock))
  {
    StandingUnique(b, i, n);
    FindIs(Standing(b, i, n, 0, map[]).rows, i);
    assert |Guess(b, i).digest| == |b.rows[i].digest| + 1;
  }

  lemma MissCarried(b: State, i: nat, n: nat, lockAt: int, readings: Readings)
    requires Guessable(b, i) && lockAt >= 0
    ensures Finished(Standing(b, i, n, 0, readings), Guess(b, i), Miss(lockAt)) == Standing(b, i, n + 1, lockAt, readings)
  {
    var s, id := Standing(b, i, n, 0, readings), b.rows[i].id;
    StandingUnique(b, i, n);
    CountOne(s.rows, Open(id), i);
    var k := UpdateOne(s.rows, Open(id), CountFailure(lockAt, b.clock), id);
    assert Failures(b, i, n + 1) == Failures(b, i, n) + [Failure(id, b.rows[i].email, b.clock)];
    assert b.failures + Failures(b, i, n) + [Failure(id, b.rows[i].email, b.clock)] == b.failures + Failures(b, i, n + 1);
  }

  lemma ByRead(p: State -> bool, b: State, i: nat, w: nat, n: nat, readings: Readings, thread: nat)
    requires Arriving(p, b, i, w) && p(Standing(b, i, n, 0, readings)) && n < MAX_ATTEMPTS
    requires thread !in readings && |Verifying(readings, b.rows[i].id)| < w
    ensures p(Standing(b, i, n, 0, readings[thread := Missed(b, i, LockAt(n, b.clock))]))
  {
    var s, s' := Standing(b, i, n, 0, readings), Standing(b, i, n, 0, readings[thread := Missed(b, i, LockAt(n, b.clock))]);
    GuessMisses(b, i, n);
    assert s.rows == Standing(b, i, n, 0, map[]).rows;
    assert Step(s, Select(thread, Guess(b, i))) == s';
    assert NextGuessing(b.rows[i].id, w)(s, Select(thread, Guess(b, i)), s');
  }

  lemma ByCarry(p: State -> bool, b: State, i: nat, w: nat, n: nat, readings: Readings, thread: nat, lockAt: int)
    requires Arriving(p, b, i, w) && p(Standing(b, i, n, 0, readings)) && lockAt >= 0
    requires thread in readings && readings[thread] == Missed(b, i, lockAt)
    ensures p(Standing(b, i, n + 1, lockAt, readings - {thread}))
  {
    var s, s' := Standing(b, i, n, 0, readings), Standing(b, i, n + 1, lockAt, readings - {thread});
    MissCarried(b, i, n, lockAt, readings);
    assert Step(s, Carry(thread)) == s';
    assert NextGuessing(b.rows[i].id, w)(s, Carry(thread), s');
  }

  lemma {:induction false} OneByOne(p: State -> bool, b: State, i: nat, w: nat, n: nat)
    requires Arriving(p, b, i, w) && w >= 1 && n <= MAX_ATTEMPTS - 2
    ensures p(Standing(b, i, n, 0, map[]))
  {
    if n == 0 {
      assert Failures(b, i, 0) == [] && b.failures + [] == b.failures;
      assert Standing(b, i, 0, 0, map[]) == b;
    } else {
      OneByOne(p, b, i, w, n - 1);
      assert Verifying(map[], b.rows[i].id) == {};
      ByRead(p, b, i, w, n - 1, map[], 0);
      var one: Readings := map[][0 := Missed(b, i, 0)];
      ByCarry(p, b, i, w, n - 1, one, 0, 0);
      assert one - {0} == map[];
    }
  }

  /** Verifiers that have all read while no failure locks. */
  ghost function Queued(b: State, i: nat, lo: nat, hi: nat): Readings
    requires i < |b.rows|
  {
    map t: nat | lo <= t < hi :: MissedBy(b, i, t)
  }

  lemma QueuedEnds(b: State, i: nat, lo: nat, hi: nat)
    requires i < |b.rows| && lo < hi
    ensures Queued(b, i, lo, hi) == Queued(b, i, lo, hi - 1)[hi - 1 := Missed(b, i, 0)]
    ensures Queued(b, i, lo, hi) - {lo} == Queued(b, i, lo + 1, hi)
    ensures hi - 1 !in Queued(b, i, lo, hi - 1) && lo in Queued(b, i, lo, hi)
  {
  }

  lemma QueuedSize(b: State, i: nat, lo: nat, hi: nat)
    requires i < |b.rows| && lo <= hi
    ensures |Verifying(Queued(b, i, lo, hi), b.rows[i].id)| <= hi - lo
  {
    WhereBelow(Queued(b, i, lo, hi), OnChallenge(b.rows[i].id), lo, hi);
  }

  lemma {:induction false} AllRead(p: State -> bool, b: State, i: nat, w: nat, hi: nat)
    requires Arriving(p, b, i, w) && 1 <= hi <= w + 1 && w >= 1
    ensures p(Standing(b, i, MAX_ATTEMPTS - 2, 0, Queued(b, i, 1, hi)))
    decreases hi
  {
    if hi == 1 {
      OneByOne(p, b, i, w, MAX_ATTEMPTS - 2);
      assert Queued(b, i, 1, 1) == map[];
    } else {
      AllRead(p, b, i, w, hi - 1);
      QueuedEnds(b, i, 1, hi);
      QueuedSize(b, i, 1, hi - 1);
      ByRead(p, b, i, w, MAX_ATTEMPTS - 2, Queued(b, i, 1, hi - 1), hi - 1);
    }
  }

  /** With one failure to go, one more reads, which will lock. */
  ghost function WithLocker(b: State, i: nat, readings: Readings): Readings
    requires i < |b.rows|
  {
    readings[0 := Missed(b, i, b.clock)]
  }

  lemma LockerReads(p: State -> bool, b: State, i: nat, w: nat)
    requires Arriving(p, b, i, w) && w >= 1
    ensures p(Standing(b, i, MAX_ATTEMPTS - 1, 0, WithLocker(b, i, Queued(b, i, 2, w + 1))))
  {
    AllRead(p, b, i, w, w + 1);
    QueuedEnds(b, i, 1, w + 1);
    ByCarry(p, b, i, w, MAX_ATTEMPTS - 2, Queued(b, i, 1, w + 1), 1, 0);
    QueuedSize(b, i, 2, w + 1);
    ByRead(p, b, i, w, MAX_ATTEMPTS - 1, Queued(b, i, 2, w + 1), 0);
  }

  lemma LockerKept(b: State, i: nat, lo: nat, hi: nat)
    requires i < |b.rows| && 1 <= lo < hi
    ensures lo in WithLocker(b, i, Queued(b, i, lo, hi)) && WithLocker(b, i, Queued(b, i, lo, hi))[lo] == Missed(b, i, 0)
    ensures WithLocker(b, i, Queued(b, i, lo, hi)) - {lo} == WithLocker(b, i, Queued(b, i, lo + 1, hi))
  {
  }

  /** The others write first. */
  lemma {:induction false} OthersWrite(p: State -> bool, b: State, i: nat, w: nat, lo: nat) returns (n: nat)
    requires Arriving(p, b, i, w) && w >= 1 && 2 <= lo <= w + 1
    ensures n == MAX_ATTEMPTS - 3 + lo
    ensures p(Standing(b, i, n, 0, WithLocker(b, i, Queued(b, i, lo, w + 1))))
    decreases lo
  {
    if lo == 2 {
      LockerReads(p, b, i, w);
      n := MAX_ATTEMPTS - 1;
    } else {
      var m := OthersWrite(p, b, i, w, lo - 1);
      LockerKept(b, i, lo - 1, w + 1);
      ByCarry(p, b, i, w, m, WithLocker(b, i, Queued(b, i, lo - 1, w + 1)), lo - 1, 0);
      n := m + 1;
    }
  }

  /** As many failures as w verifiers at a time can bring about, after which nobody is under
      way and the challenge is closed. */
  lemma GuessAll(p: State -> bool, b: State, i: nat, w: nat) returns (n: nat)
    requires Arriving(p, b, i, w) && w >= 1
    ensures n == MAX_ATTEMPTS - 1 + w
    ensures p(Standing(b, i, n, b.clock, map[]))
  {
    var m := OthersWrite(p, b, i, w, w + 1);
    var last := WithLocker(b, i, Queued(b, i, w + 1, w + 1));
    ByCarry(p, b, i, w, m, last, 0, b.clock);
    assert last - {0} == map[];
    n := m + 1;
  }

  lemma {:induction false} FailuresSize(failures: seq<Failure>, b: State, i: nat, n: nat)
    requires i < |b.rows|
    ensures FailuresOf(failures + Failures(b, i, n), b.rows[i].id) == FailuresOf(failures, b.rows[i].id) + n
  {
    var f := Failure(b.rows[i].id, b.rows[i].email, b.clock);
    if n == 0 {
      assert failures + Failures(b, i, 0) == failures;
    } else {
      FailuresSize(failures, b, i, n - 1);
      assert failures + Failures(b, i, n) == (failures + Failures(b, i, n - 1)) + [f];
      FailureAdded(failures + Failures(b, i, n - 1), f, b.rows[i].id);
    }
  }

  // ---- the bound is exact

  ghost function Challenge(id: string): Creation {
    Creation(id, 0, "e", "registration", "", "", 1)
  }

  /** One challenge, created and delivered. */
  ghost function OneSent(id: string): State {
    State([Deliver(1)(NewRow(Challenge(id)))], 1, map[], map[], [Delivery(id, "e", "registration")], [], [])
  }

  lemma FirstCreated(c: Creation)
    requires c.purpose == "registration" && c.ip == ""
    ensures Created([], c) == [NewRow(c)]
  {
    assert c.purpose in PURPOSES;
    assert Count([], CreatedSince(c.email, c.now - HOUR)) == 0;
  }

  lemma FirstSent(r: Row, now: int)
    requires r.status == Pending && r.invalidatedAt == 0 && r.consumedAt == 0
    ensures SentHit([r], r.id) && MarkedSent([r], r.id, now) == [Deliver(now)(r)]
    ensures Find([r], r.id) == Some(r)
  {
    CountOne([r], Sendable(r.id), 0);
  }

  lemma OneCreated(p: State -> bool, id: string, w: nat)
    requires p(INITIAL) && Preserves(NextVerifying(id, w), p)
    ensures p(INITIAL.(rows := [NewRow(Challenge(id))]))
  {
    var c := Challenge(id);
    FirstCreated(c);
    assert Step(INITIAL, Create(c)) == INITIAL.(rows := [NewRow(c)]);
    assert NextVerifying(id, w)(INITIAL, Create(c), INITIAL.(rows := [NewRow(c)]));
  }

  lemma OneDelivered(p: State -> bool, id: string, w: nat)
    requires p(INITIAL) && Preserves(NextVerifying(id, w), p)
    ensures p(OneSent(id))
  {
    var c := Challenge(id);
    var s := INITIAL.(rows := [NewRow(c)]);
    OneCreated(p, id, w);
    FirstSent(NewRow(c), 1);
    assert Step(s, MarkSent(id, 1)) == OneSent(id);
    assert NextVerifying(id, w)(s, MarkSent(id, 1), OneSent(id));
  }

  /** With w verifiers at a time, the bound is met in some run, both by the comparisons and by
      what the challenge has counted. */
  lemma FailuresBoundMet(id: string, w: nat) returns (s: State)
    requires w >= 1
    ensures Reaches(NextVerifying(id, w), INITIAL, s)
    ensures FailuresOf(s.failures, id) == MAX_ATTEMPTS - 1 + w
    ensures |s.rows| == 1 && s.rows[0].id == id && s.rows[0].attempts == MAX_ATTEMPTS - 1 + w
  {
    var next, b := NextVerifying(id, w), OneSent(id);
    ReachedKept(next, INITIAL);
    OneDelivered(ReachedFrom(next, INITIAL), id, w);
    assert "registration" in PURPOSES;
    assert forall s, a, t :: NextGuessing(id, w)(s, a, t) ==> next(s, a, t);
    var n := GuessAll(ReachedFrom(next, INITIAL), b, 0, w);
    s := Standing(b, 0, n, b.clock, map[]);
    FailuresSize([], b, 0, n);
    assert [] + Failures(b, 0, n) == s.failures;
  }

  /** So the limit of five holds in all runs with at most w verifiers at a time if and only if
      that is one. */
  lemma LimitHoldsIff(id: string, w: nat)
    ensures (forall s | Reaches(NextVerifying(id, w), INITIAL, s) :: FailuresOf(s.failures, id) <= MAX_ATTEMPTS) <==> w <= 1
  {
    if w <= 1 {
      forall s | Reaches(NextVerifying(id, w), INITIAL, s)
        ensures FailuresOf(s.failures, id) <= MAX_ATTEMPTS
      {
        FailuresBound(s, id, w);
      }
    } else {
      var s := FailuresBoundMet(id, w);
    }
  }

  /** A challenge at its limit is refused, even with the right code. */
  lemma RefusedAtLimit(r: Row, q: Request)
    requires r.attempts >= r.maxAttempts
    ensures !Decide(Some(r), q).Consume? && !Consumable(q.id, q.now)(r)
  {
  }

  // ---- all challenges of an email

  /** The failures of all rows that satisfy p. */
  ghost function FailuresOfRows(rows: seq<Row>, p: Row -> bool, failures: seq<Failure>): nat {
    if rows == [] then 0
    else FailuresOfRows(rows[..|rows| - 1], p, failures)
         + (if p(rows[|rows| - 1]) then FailuresOf(failures, rows[|rows| - 1].id) else 0)
  }

  lemma {:induction false} AddFailure(rows: seq<Row>, p: Row -> bool, failures: seq<Failure>, f: Failure)
    ensures FailuresOfRows(rows, p, failures + [f]) >= FailuresOfRows(rows, p, failures)
    ensures (exists i :: 0 <= i < |rows| && p(rows[i]) && rows[i].id == f.id) ==>
              FailuresOfRows(rows, p, failures + [f]) >= FailuresOfRows(rows, p, failures) + 1
  {
    if rows != [] {
      var n := |rows| - 1;
      AddFailure(rows[..n], p, failures, f);
      FailureAdded(failures, f, rows[n].id);
      if i :| 0 <= i < |rows| && p(rows[i]) && rows[i].id == f.id {
        assert i < n ==> rows[..n][i] == rows[i];
      }
    }
  }

  ghost predicate FailuresGrounded(rows: seq<Row>, failures: seq<Failure>) {
    forall k | 0 <= k < |failures| :: Grounded(rows, failures[k].id, failures[k].email, failures[k].at)
  }

  /** Failures in a window are failures of challenges created in a window that starts one
      lifetime earlier. */
  lemma {:induction false} FailuresCovered(rows: seq<Row>, failures: seq<Failure>, email: string, after: int, until: int)
    requires FailuresGrounded(rows, failures)
    requires forall i | 0 <= i < |rows| :: rows[i].expiresAt == rows[i].createdAt + TTL_SECONDS
    ensures FailuresIn(failures, email, after, until)
         <= FailuresOfRows(rows, CreatedWithin(ByEmail(email), after - TTL_SECONDS, until), failures)
  {
    if failures != [] {
      var n := |failures| - 1;
      var f, p := failures[n], CreatedWithin(ByEmail(email), after - TTL_SECONDS, until);
      FailuresCovered(rows, failures[..n], email, after, until);
      AddFailure(rows, p, failures[..n], f);
      assert failures[..n] + [f] == failures;
      if f.email == email && after < f.at <= until {
        assert Grounded(rows, f.id, f.email, f.at);
        var i :| 0 <= i < |rows| && GroundedIn(rows[i], f.id, f.email, f.at);
        assert p(rows[i]);
      }
    }
  }

  lemma OneMore(a: nat, n: nat)
    ensures a * (n + 1) == a * n + a
  {
  }

  lemma {:induction false} FailuresPerRow(rows: seq<Row>, p: Row -> bool, failures: seq<Failure>, most: nat)
    requires forall i | 0 <= i < |rows| :: FailuresOf(failures, rows[i].id) <= most
    ensures FailuresOfRows(rows, p, failures) <= most * Count(rows, p)
  {
    if rows != [] {
      var before := rows[..|rows| - 1];
      FailuresPerRow(before, p, failures, most);
      OneMore(most, Count(before, p));
    }
  }

  lemma {:induction false} CountSplit(rows: seq<Row>, key: Key, a: int, b: int, c: int)
    requires a <= b <= c
    ensures Count(rows, CreatedWithin(key, a, c)) == Count(rows, CreatedWithin(key, a, b)) + Count(rows, CreatedWithin(key, b, c))
  {
    if rows != [] {
      CountSplit(rows[..|rows| - 1], key, a, b, c);
    }
  }

  /** At most cw creations for the email and at most vw verifiers of a challenge at a time. */
  function NextCareful(email: string, cw: nat, vw: nat): (State, Action, State) -> bool {
    (s, a, t) => && Enabled(s, a) && t == Step(s, a) && Fits(s, a, ByEmail(email), cw)
                 && (a.Verify? || a.Select? ==> |Verifying(s.readings, a.q.id)| < vw)
  }

  lemma CareRestricts(email: string, cw: nat, vw: nat, s: State, id: string)
    requires Reaches(NextCareful(email, cw, vw), INITIAL, s)
    ensures Reaches(NextCreating(ByEmail(email), cw), INITIAL, s)
    ensures Reaches(NextVerifying(id, vw), INITIAL, s)
    ensures Reachable(s)
  {
    Allowed(NextCareful(email, cw, vw), NextCreating(ByEmail(email), cw), INITIAL, s);
    Allowed(NextCareful(email, cw, vw), NextVerifying(id, vw), INITIAL, s);
    Allowed(NextCareful(email, cw, vw), Next(), INITIAL, s);
  }

  lemma TwoHours(s: State, email: string, cw: nat, t: int)
    requires Reaches(NextCreating(ByEmail(email), cw), INITIAL, s)
    ensures Count(s.rows, CreatedWithin(ByEmail(email), t - TTL_SECONDS, t + HOUR)) <= 2 * (EMAIL_HOURLY_LIMIT - 1 + cw)
  {
    var key, middle := ByEmail(email), t - TTL_SECONDS + HOUR;
    CountSplit(s.rows, key, t - TTL_SECONDS, middle, t + HOUR);
    CreatedBound(s, key, cw, t - TTL_SECONDS);
    CreatedBound(s, key, cw, middle);
    CountImplies(s.rows, CreatedWithin(key, middle, t + HOUR), CreatedWithin(key, middle, middle + HOUR));
  }

  /** How many wrong codes an email sees in any hour: fifty when nothing overlaps. */
  lemma GuessesPerHour(s: State, email: string, cw: nat, vw: nat, t: int)
    requires Reaches(NextCareful(email, cw, vw), INITIAL, s)
    ensures FailuresIn(s.failures, email, t, t + HOUR) <= (MAX_ATTEMPTS - 1 + vw) * (2 * (EMAIL_HOURLY_LIMIT - 1 + cw))
    ensures cw == vw == 1 ==> FailuresIn(s.failures, email, t, t + HOUR) <= 50
  {
    var p := CreatedWithin(ByEmail(email), t - TTL_SECONDS, t + HOUR);
    CareRestricts(email, cw, vw, s, "");
    AlwaysCounted(s);
    forall i | 0 <= i < |s.rows|
      ensures s.rows[i].expiresAt == s.rows[i].createdAt + TTL_SECONDS
      ensures FailuresOf(s.failures, s.rows[i].id) <= MAX_ATTEMPTS - 1 + vw
    {
      assert Dated(s.rows[i], s.clock);
      CareRestricts(email, cw, vw, s, s.rows[i].id);
      FailuresBound(s, s.rows[i].id, vw);
    }
    FailuresCovered(s.rows, s.failures, email, t, t + HOUR);
    FailuresPerRow(s.rows, p, s.failures, MAX_ATTEMPTS - 1 + vw);
    TwoHours(s, email, cw, t);
    Scaled(MAX_ATTEMPTS - 1 + vw, Count(s.rows, p), 2 * (EMAIL_HOURLY_LIMIT - 1 + cw));
  }

  lemma Scaled(a: nat, x: nat, y: nat)
    requires x <= y
    ensures a * x <= a * y
  {
  }
}
