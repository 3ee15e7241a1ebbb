/** Whole runs over the challenge table. A creation or a verification either runs in one
    transaction or is overtaken between its SELECTs and its INSERT or UPDATE, each of which
    is a step of its own; any number of them are under way at a time. The logs only record
    what happened; no step reads them. */
module ChallengeRuns {
  import opened Basics
  import opened EmailChallenge
  import opened Runs

  datatype Delivery = Delivery(id: string, email: string, purpose: string)

  /** An accepted code, with what the run knew at that moment. */
  datatype Success = Success(id: string, latestSent: Option<string>, at: int, expiresAt: int, attempts: int, maxAttempts: int)

  /** A failed comparison. */
  datatype Failure = Failure(id: string, email: string, at: int)

  /** A verifier between its SELECT and its UPDATE. */
  datatype Reading = Reading(q: Request, decision: Decision)

  /** A creation with its first one, two or three SELECTs behind it. */
  datatype Creator = Creator(c: Creation, selects: nat)

  datatype State = State(rows: seq<Row>, clock: int, readings: map<nat, Reading>, creators: map<nat, Creator>,
                         sent: seq<Delivery>, successes: seq<Success>, failures: seq<Failure>)

  datatype Action =
    | Create(c: Creation)                 // all SELECTs and the INSERT in one transaction
    | CountEmail(thread: nat, c: Creation)  // the first SELECT of a creation
    | Proceed(thread: nat)                // its next SELECT, or the INSERT after the third
    | MarkSent(id: string, now: int)
    | MarkFailed(id: string, now: int)
    | Verify(q: Request)                  // SELECT and UPDATE in one transaction
    | Select(thread: nat, q: Request)     // only the SELECT
    | Carry(thread: nat)                  // the UPDATE of an earlier SELECT

  const INITIAL := State([], 1, map[], map[], [], [], [])

  /** Clock readings are positive and never go back. */
  predicate Timely(s: State, now: int) {
    now >= s.clock && now > 0
  }

  predicate Enabled(s: State, a: Action) {
    match a
    case Create(c) => Timely(s, c.now)
    case CountEmail(thread, c) => Timely(s, c.now) && thread !in s.creators
    case Proceed(thread) => thread in s.creators
    case MarkSent(_, now) => Timely(s, now)
    case MarkFailed(_, now) => Timely(s, now)
    case Verify(q) => Timely(s, q.now)
    case Select(thread, q) => Timely(s, q.now) && thread !in s.readings
    case Carry(thread) => thread in s.readings
  }

  /** The most recently delivered challenge of a key. */
  function LastSent(sent: seq<Delivery>, email: string, purpose: string): Option<string> {
    if sent == [] then None
    else if sent[|sent| - 1].email == email && sent[|sent| - 1].purpose == purpose then Some(sent[|sent| - 1].id)
    else LastSent(sent[..|sent| - 1], email, purpose)
  }

  function Finished(s: State, q: Request, d: Decision): State {
    var found := Find(s.rows, q.id);
    var s' := s.(rows := Carried(s.rows, q.id, d, q.now));
    if d.Miss? then s'.(failures := s.failures + [Failure(q.id, q.email, q.now)])
    else if Answer(s.rows, q.id, d, q.now).None? && found.Some? then
      var r := found.value;
      s'.(successes := s.successes + [Success(q.id, LastSent(s.sent, r.email, r.purpose), q.now, r.expiresAt, r.attempts, r.maxAttempts)])
    else s'
  }

  function Inserted(rows: seq<Row>, c: Creation): seq<Row> {
    if Find(rows, c.id).Some? then rows else rows + [NewRow(c)]
  }

  /** The second and the third SELECT of a creation. */
  predicate Passes(rows: seq<Row>, x: Creator) {
    if x.selects == 1 then !AddressFull(rows, x.c) else !TooSoon(rows, x.c)
  }

  function Proceeded(s: State, thread: nat): State
    requires thread in s.creators
  {
    var x := s.creators[thread];
    if x.selects >= 3 then s.(rows := Inserted(s.rows, x.c), creators := s.creators - {thread})
    else if Passes(s.rows, x) then s.(creators := s.creators[thread := x.(selects := x.selects + 1)])
    else s.(creators := s.creators - {thread})
  }

  function Step(s: State, a: Action): State
    requires Enabled(s, a)
  {
    match a
    case Create(c) => s.(rows := Created(s.rows, c), clock := c.now)
    case CountEmail(thread, c) =>
      if c.purpose in PURPOSES && !EmailFull(s.rows, c)
      then s.(creators := s.creators[thread := Creator(c, 1)], clock := c.now)
      else s.(clock := c.now)
    case Proceed(thread) => Proceeded(s, thread)
    case MarkSent(id, now) =>
      var found := Find(s.rows, id);
      s.(rows := MarkedSent(s.rows, id, now), clock := now,
         sent := if SentHit(s.rows, id) then s.sent + [Delivery(id, found.value.email, found.value.purpose)] else s.sent)
    case MarkFailed(id, now) => s.(rows := MarkedFailed(s.rows, id, now), clock := now)
    case Verify(q) => Finished(s, q, Decide(Find(s.rows, q.id), q)).(clock := q.now)
    case Select(thread, q) =>
      s.(readings := s.readings[thread := Reading(q, Decide(Find(s.rows, q.id), q))], clock := q.now)
    case Carry(thread) =>
      var reading := s.readings[thread];
      Finished(s, reading.q, reading.decision).(readings := s.readings - {thread})
  }

  /** Every interleaving. */
  function Next(): (State, Action, State) -> bool {
    (s, a, t) => Enabled(s, a) && t == Step(s, a)
  }

  ghost predicate Reachable(s: State) {
    Reaches(Next(), INITIAL, s)
  }

  // ---- what every step keeps

  predicate SameCore(a: Row, b: Row) {
    && a.id == b.id && a.userId == b.userId && a.email == b.email && a.purpose == b.purpose && a.digest == b.digest
    && a.resendAt == b.resendAt && a.expiresAt == b.expiresAt && a.maxAttempts == b.maxAttempts
    && a.ip == b.ip && a.createdAt == b.createdAt
  }

  ghost predicate Rewritten(rows: seq<Row>, rows': seq<Row>) {
    |rows| == |rows'| && forall i | 0 <= i < |rows| :: SameCore(rows[i], rows'[i])
  }

  ghost predicate Dated(r: Row, clock: int) {
    && r.createdAt <= clock && r.resendAt == r.createdAt + RESEND_SECONDS && r.expiresAt == r.createdAt + TTL_SECONDS
    && r.maxAttempts == MAX_ATTEMPTS
  }

  ghost predicate Chronicle(rows: seq<Row>, clock: int) {
    UniqueIds(rows) && forall i | 0 <= i < |rows| :: Dated(rows[i], clock)
  }

  lemma {:induction false} CountSame(rows: seq<Row>, rows': seq<Row>, p: Row -> bool)
    requires |rows| == |rows'| && forall i | 0 <= i < |rows| :: p(rows[i]) == p(rows'[i])
    ensures Count(rows, p) == Count(rows', p)
  {
    if rows != [] {
      CountSame(rows[..|rows| - 1], rows'[..|rows| - 1], p);
    }
  }

  lemma {:induction false} CountImplies(rows: seq<Row>, p: Row -> bool, q: Row -> bool)
    requires forall i | 0 <= i < |rows| && p(rows[i]) :: q(rows[i])
    ensures Count(rows, p) <= Count(rows, q)
  {
    if rows != [] {
      CountImplies(rows[..|rows| - 1], p, q);
    }
  }

  lemma RewrittenChronicle(rows: seq<Row>, rows': seq<Row>, clock: int, clock': int)
    requires Chronicle(rows, clock) && Rewritten(rows, rows') && clock <= clock'
    ensures Chronicle(rows', clock')
  {
    forall i, j | 0 <= i < j < |rows'|
      ensures rows'[i].id != rows'[j].id
    {
      assert SameCore(rows[i], rows'[i]) && SameCore(rows[j], rows'[j]);
    }
    forall i | 0 <= i < |rows'|
      ensures Dated(rows'[i], clock')
    {
      assert SameCore(rows[i], rows'[i]) && Dated(rows[i], clock);
    }
  }

  /** A creation adds its row, or nothing. */
  ghost predicate Adds(rows: seq<Row>, rows': seq<Row>, c: Creation) {
    rows' == rows || (rows' == rows + [NewRow(c)] && Find(rows, c.id).None?)
  }

  lemma AddsChronicle(rows: seq<Row>, rows': seq<Row>, c: Creation, clock: int)
    requires Chronicle(rows, clock) && c.now <= clock && Adds(rows, rows', c)
    ensures Chronicle(rows', clock)
  {
    forall i | 0 <= i < |rows'|
      ensures Dated(rows'[i], clock)
    {
      assert i < |rows| ==> rows'[i] == rows[i] && Dated(rows[i], clock);
    }
  }

  /** A live challenge is the last one delivered for its key. */
  ghost predicate LiveIsLast(rows: seq<Row>, sent: seq<Delivery>) {
    forall i | 0 <= i < |rows| && Live(rows[i]) :: LastSent(sent, rows[i].email, rows[i].purpose) == Some(rows[i].id)
  }

  ghost predicate WasConsumed(rows: seq<Row>, id: string) {
    exists i :: 0 <= i < |rows| && rows[i].id == id && rows[i].consumedAt > 0
  }

  ghost predicate UsedOnce(rows: seq<Row>, successes: seq<Success>) {
    && (forall k | 0 <= k < |successes| :: WasConsumed(rows, successes[k].id))
    && forall j, k | 0 <= j < k < |successes| :: successes[j].id != successes[k].id
  }

  ghost predicate Rightful(x: Success) {
    x.latestSent == Some(x.id) && x.at < x.expiresAt && x.attempts < x.maxAttempts
  }

  ghost predicate Inv(s: State) {
    && Chronicle(s.rows, s.clock)
    && LiveIsLast(s.rows, s.sent)
    && UsedOnce(s.rows, s.successes)
    && (forall k | 0 <= k < |s.successes| :: Rightful(s.successes[k]))
    && (forall t | t in s.readings :: s.readings[t].q.now > 0)
    && forall t | t in s.creators :: s.creators[t].c.now <= s.clock
  }

  /** No row becomes live and no consumption is taken back. */
  ghost predicate OnlyCloses(rows: seq<Row>, rows': seq<Row>) {
    && Rewritten(rows, rows')
    && forall i | 0 <= i < |rows| :: (Live(rows'[i]) ==> Live(rows[i])) && (rows[i].consumedAt > 0 ==> rows'[i].consumedAt > 0)
  }

  lemma ClosingKeeps(rows: seq<Row>, rows': seq<Row>, sent: seq<Delivery>, successes: seq<Success>)
    requires OnlyCloses(rows, rows') && LiveIsLast(rows, sent) && UsedOnce(rows, successes)
    ensures LiveIsLast(rows', sent) && UsedOnce(rows', successes)
  {
    forall i | 0 <= i < |rows'| && Live(rows'[i])
      ensures LastSent(sent, rows'[i].email, rows'[i].purpose) == Some(rows'[i].id)
    {
      assert SameCore(rows[i], rows'[i]) && Live(rows[i]);
    }
    forall k | 0 <= k < |successes|
      ensures WasConsumed(rows', successes[k].id)
    {
      assert WasConsumed(rows, successes[k].id);
      var i :| 0 <= i < |rows| && rows[i].id == successes[k].id && rows[i].consumedAt > 0;
      assert SameCore(rows[i], rows'[i]) && rows'[i].consumedAt > 0;
    }
  }

  lemma CarriedCloses(rows: seq<Row>, id: string, d: Decision, now: int)
    requires now > 0
    ensures OnlyCloses(rows, Carried(rows, id, d, now))
  {
    var rows' := Carried(rows, id, d, now);
    forall i | 0 <= i < |rows|
      ensures SameCore(rows[i], rows'[i]) && (Live(rows'[i]) ==> Live(rows[i]))
      ensures rows[i].consumedAt > 0 ==> rows'[i].consumedAt > 0
    {
    }
  }

  lemma AddsKeeps(rows: seq<Row>, rows': seq<Row>, c: Creation, sent: seq<Delivery>, successes: seq<Success>)
    requires LiveIsLast(rows, sent) && UsedOnce(rows, successes) && Adds(rows, rows', c)
    ensures LiveIsLast(rows', sent) && UsedOnce(rows', successes)
  {
    forall k | 0 <= k < |successes|
      ensures WasConsumed(rows', successes[k].id)
    {
      assert WasConsumed(rows, successes[k].id);
      var i :| 0 <= i < |rows| && rows[i].id == successes[k].id && rows[i].consumedAt > 0;
      assert rows'[i] == rows[i];
    }
  }

  /** What a delivery leaves of a row. */
  predicate SentFrom(r: Row, r': Row, now: int) {
    || r' == r || r' == Deliver(now)(r) || r' == Invalidate(now)(r) || r' == Invalidate(now)(Deliver(now)(r))
  }

  lemma SentRow(rows: seq<Row>, id: string, now: int, i: nat)
    requires i < |rows|
    ensures SentFrom(rows[i], MarkedSent(rows, id, now)[i], now)
    ensures SameCore(rows[i], MarkedSent(rows, id, now)[i])
    ensures rows[i].consumedAt == MarkedSent(rows, id, now)[i].consumedAt
  {
    if Find(rows, id).Some? {
      var sent := Update(rows, Sendable(id), Deliver(now));
      assert sent[i] == rows[i] || sent[i] == Deliver(now)(rows[i]);
      assert MarkedSent(rows, id, now)[i] == sent[i] || MarkedSent(rows, id, now)[i] == Invalidate(now)(sent[i]);
    }
  }

  lemma SentUsed(rows: seq<Row>, id: string, now: int, successes: seq<Success>)
    requires UsedOnce(rows, successes)
    ensures Rewritten(rows, MarkedSent(rows, id, now)) && UsedOnce(MarkedSent(rows, id, now), successes)
  {
    var rows' := MarkedSent(rows, id, now);
    forall i | 0 <= i < |rows|
      ensures SameCore(rows[i], rows'[i]) && rows[i].consumedAt == rows'[i].consumedAt
    {
      SentRow(rows, id, now, i);
    }
    forall k | 0 <= k < |successes|
      ensures WasConsumed(rows', successes[k].id)
    {
      assert WasConsumed(rows, successes[k].id);
      var i :| 0 <= i < |rows| && rows[i].id == successes[k].id && rows[i].consumedAt > 0;
      assert rows'[i].consumedAt == rows[i].consumedAt && rows'[i].id == rows[i].id;
    }
  }

  /** After a delivery, the delivered challenge is the only live one of its key. */
  lemma SentHitKeeps(rows: seq<Row>, id: string, now: int, sent: seq<Delivery>)
    requires now > 0 && UniqueIds(rows) && LiveIsLast(rows, sent) && SentHit(rows, id)
    ensures var r := Find(rows, id).value;
            LiveIsLast(MarkedSent(rows, id, now), sent + [Delivery(id, r.email, r.purpose)])
  {
    var r, rows' := Find(rows, id).value, MarkedSent(rows, id, now);
    var sent' := sent + [Delivery(id, r.email, r.purpose)];
    assert sent'[..|sent|] == sent;
    var k :| 0 <= k < |rows| && rows[k] == r;
    forall i | 0 <= i < |rows| && Live(rows'[i])
      ensures LastSent(sent', rows'[i].email, rows'[i].purpose) == Some(rows'[i].id)
    {
      SentRow(rows, id, now, i);
      if rows[i].id == id {
        assert i == k;
      } else {
        SentOther(rows, id, now, i);
      }
    }
  }

  /** Another challenge that is still live has another key. */
  lemma SentOther(rows: seq<Row>, id: string, now: int, i: nat)
    requires now > 0 && SentHit(rows, id) && i < |rows| && rows[i].id != id && Live(MarkedSent(rows, id, now)[i])
    ensures Live(rows[i])
    ensures rows[i].email != Find(rows, id).value.email || rows[i].purpose != Find(rows, id).value.purpose
  {
  }

  lemma SentKeeps(rows: seq<Row>, id: string, now: int, sent: seq<Delivery>)
    requires now > 0 && UniqueIds(rows) && LiveIsLast(rows, sent)
    ensures !SentHit(rows, id) ==> LiveIsLast(MarkedSent(rows, id, now), sent)
    ensures SentHit(rows, id) ==>
              var r := Find(rows, id).value;
              LiveIsLast(MarkedSent(rows, id, now), sent + [Delivery(id, r.email, r.purpose)])
  {
    if SentHit(rows, id) {
      SentHitKeeps(rows, id, now, sent);
    } else {
      if i :| 0 <= i < |rows| && Sendable(id)(rows[i]) {
        CountOne(rows, Sendable(id), i);
        assert false;
      }
    }
  }

  /** With unique ids, the row a SELECT finds is the row an UPDATE hits. */
  lemma FoundIsHit(rows: seq<Row>, id: string, p: Row -> bool) returns (i: nat)
    requires UniqueIds(rows) && Count(rows, p) > 0 && forall r | p(r) :: r.id == id
    ensures i < |rows| && p(rows[i]) && Find(rows, id) == Some(rows[i])
  {
    i := CountWitness(rows, p);
    var r := Find(rows, id).value;
    var k :| 0 <= k < |rows| && rows[k] == r;
    assert i == k by {
      assert rows[i].id == rows[k].id;
    }
  }

  /** A challenge that is not consumed has not been accepted. */
  lemma NotAcceptedYet(rows: seq<Row>, successes: seq<Success>, i: nat, j: nat)
    requires UniqueIds(rows) && UsedOnce(rows, successes)
    requires i < |rows| && rows[i].consumedAt == 0 && j < |successes|
    ensures successes[j].id != rows[i].id
  {
    assert WasConsumed(rows, successes[j].id);
    var m :| 0 <= m < |rows| && rows[m].id == successes[j].id && rows[m].consumedAt > 0;
    assert m != i;
  }

  lemma OneMoreUsed(rows: seq<Row>, successes: seq<Success>, x: Success)
    requires UsedOnce(rows, successes) && WasConsumed(rows, x.id)
    requires forall j | 0 <= j < |successes| :: successes[j].id != x.id
    ensures UsedOnce(rows, successes + [x])
  {
    var more := successes + [x];
    forall k | 0 <= k < |more|
      ensures WasConsumed(rows, more[k].id)
    {
      assert k < |successes| ==> more[k] == successes[k];
    }
    assert forall j | 0 <= j < |successes| :: more[j] == successes[j];
  }

  lemma SuccessIsRightful(s: State, q: Request, d: Decision)
    requires Inv(s) && d.Consume? && q.now > 0 && Answer(s.rows, q.id, d, q.now).None?
    ensures Find(s.rows, q.id).Some?
    ensures Live(Find(s.rows, q.id).value)
    ensures Rightful(Finished(s, q, d).successes[|s.successes|])
    ensures UsedOnce(Finished(s, q, d).rows, Finished(s, q, d).successes)
  {
    var i := FoundIsHit(s.rows, q.id, Consumable(q.id, q.now));
    assert Live(s.rows[i]);
    var s' := Finished(s, q, d);
    CarriedCloses(s.rows, q.id, d, q.now);
    ClosingKeeps(s.rows, s'.rows, s.sent, s.successes);
    assert s'.rows[i].id == q.id && s'.rows[i].consumedAt == q.now;
    assert WasConsumed(s'.rows, q.id);
    forall j | 0 <= j < |s.successes|
      ensures s.successes[j].id != q.id
    {
      NotAcceptedYet(s.rows, s.successes, i, j);
    }
    OneMoreUsed(s'.rows, s.successes, s'.successes[|s.successes|]);
  }

  lemma FinishedKeeps(s: State, q: Request, d: Decision)
    requires Inv(s) && q.now > 0
    ensures Inv(Finished(s, q, d))
  {
    var s' := Finished(s, q, d);
    CarriedCloses(s.rows, q.id, d, q.now);
    RewrittenChronicle(s.rows, s'.rows, s.clock, s.clock);
    ClosingKeeps(s.rows, s'.rows, s.sent, s.successes);
    if d.Consume? && Answer(s.rows, q.id, d, q.now).None? {
      SuccessIsRightful(s, q, d);
    }
  }

  lemma CreationKeeps(s: State, a: Action)
    requires Inv(s) && Enabled(s, a) && (a.Create? || a.CountEmail? || a.Proceed?)
    ensures Inv(Step(s, a))
  {
    match a {
      case Create(c) =>
        RewrittenChronicle(s.rows, s.rows, s.clock, c.now);
        AddsChronicle(s.rows, Created(s.rows, c), c, c.now);
        AddsKeeps(s.rows, Created(s.rows, c), c, s.sent, s.successes);
      case CountEmail(thread, c) =>
        RewrittenChronicle(s.rows, s.rows, s.clock, c.now);
      case Proceed(thread) =>
        var c := s.creators[thread].c;
        AddsChronicle(s.rows, Proceeded(s, thread).rows, c, s.clock);
        AddsKeeps(s.rows, Proceeded(s, thread).rows, c, s.sent, s.successes);
    }
  }

  lemma DeliveryKeeps(s: State, a: Action)
    requires Inv(s) && Enabled(s, a) && (a.MarkSent? || a.MarkFailed?)
    ensures Inv(Step(s, a))
  {
    match a {
      case MarkSent(id, now) =>
        SentKeeps(s.rows, id, now, s.sent);
        SentUsed(s.rows, id, now, s.successes);
        RewrittenChronicle(s.rows, MarkedSent(s.rows, id, now), s.clock, now);
      case MarkFailed(id, now) =>
        assert OnlyCloses(s.rows, MarkedFailed(s.rows, id, now));
        ClosingKeeps(s.rows, MarkedFailed(s.rows, id, now), s.sent, s.successes);
        RewrittenChronicle(s.rows, MarkedFailed(s.rows, id, now), s.clock, now);
    }
  }

  /** Every action keeps the invariant. */
  lemma StepKeeps(s: State, a: Action)
    requires Inv(s) && Enabled(s, a)
    ensures Inv(Step(s, a))
  {
    match a {
      case Verify(q) =>
        FinishedKeeps(s, q, Decide(Find(s.rows, q.id), q));
        var rows' := Finished(s, q, Decide(Find(s.rows, q.id), q)).rows;
        RewrittenChronicle(rows', rows', s.clock, q.now);
      case Select(thread, q) =>
        RewrittenChronicle(s.rows, s.rows, s.clock, q.now);
      case Carry(thread) =>
        FinishedKeeps(s, s.readings[thread].q, s.readings[thread].decision);
      case _ =>
        if a.MarkSent? || a.MarkFailed? {
          DeliveryKeeps(s, a);
        } else {
          CreationKeeps(s, a);
        }
    }
  }

  lemma ReachableKept(s: State)
    requires Reachable(s)
    ensures Inv(s)
  {
    var inv := (s: State) => Inv(s);
    forall s, a, t | inv(s) && Next()(s, a, t)
      ensures inv(t)
    {
      StepKeeps(s, a);
    }
    Kept(Next(), inv, INITIAL, s);
  }

  // ---- main results over whole runs

  /** At any moment of any run, at most one challenge of a key is live. */
  lemma AtMostOneLive(s: State, i: nat, j: nat)
    requires Reachable(s)
    requires i < |s.rows| && j < |s.rows| && Live(s.rows[i]) && Live(s.rows[j]) && SameKey(s.rows[i], s.rows[j])
    ensures i == j
  {
    ReachableKept(s);
  }

  /** However creations and verifications overtake each other: no challenge is accepted
      twice, and an accepted one was the last delivered for its key, unexpired, and below its
      limit of failures. */
  lemma AcceptedOnceAndRightly(s: State)
    requires Reachable(s)
    ensures forall i, j | 0 <= i < j < |s.successes| :: s.successes[i].id != s.successes[j].id
    ensures forall i | 0 <= i < |s.successes| ::
              && s.successes[i].latestSent == Some(s.successes[i].id)
              && s.successes[i].at < s.successes[i].expiresAt
              && s.successes[i].attempts < s.successes[i].maxAttempts
  {
    ReachableKept(s);
    forall i | 0 <= i < |s.successes|
      ensures Rightful(s.successes[i])
    {
    }
  }

  // ---- from the creation of a challenge to its acceptance

  /** The action inserts the row of this creation. */
  ghost predicate Inserts(s: State, a: Action, c: Creation) {
    match a
    case Create(c') => c' == c && Refusal(s.rows, c).None?
    case Proceed(thread) =>
      && thread in s.creators && s.creators[thread].c == c && s.creators[thread].selects >= 3
      && Find(s.rows, c.id).None?
    case _ => false
  }

  /** Not a negative time of consumption or closing. */
  predicate Stamped(r: Row) {
    r.consumedAt >= 0 && r.invalidatedAt >= 0
  }

  ghost predicate AllStamped(rows: seq<Row>) {
    forall i | 0 <= i < |rows| :: Stamped(rows[i])
  }

  ghost predicate HasRow(s: State, c: Creation) {
    Inv(s) && AllStamped(s.rows) && exists i :: 0 <= i < |s.rows| && Keeps(s.rows[i], c)
  }

  /** Rows stay what their creation made of them. */
  ghost predicate CoreKept(rows: seq<Row>, rows': seq<Row>) {
    && |rows| <= |rows'| && (AllStamped(rows) ==> AllStamped(rows'))
    && forall i | 0 <= i < |rows| :: SameCore(rows[i], rows'[i])
  }

  lemma CarriedCore(rows: seq<Row>, id: string, d: Decision, now: int)
    requires now > 0
    ensures CoreKept(rows, Carried(rows, id, d, now))
  {
    CarriedCloses(rows, id, d, now);
  }

  lemma SentCore(rows: seq<Row>, id: string, now: int)
    requires now > 0
    ensures CoreKept(rows, MarkedSent(rows, id, now))
  {
    forall i | 0 <= i < |rows|
      ensures SameCore(rows[i], MarkedSent(rows, id, now)[i])
      ensures Stamped(rows[i]) ==> Stamped(MarkedSent(rows, id, now)[i])
    {
      SentRow(rows, id, now, i);
    }
  }

  lemma StepCore(s: State, a: Action)
    requires Inv(s) && Enabled(s, a)
    ensures CoreKept(s.rows, Step(s, a).rows)
  {
    match a {
      case MarkSent(id, now) => SentCore(s.rows, id, now);
      case Verify(q) => CarriedCore(s.rows, q.id, Decide(Find(s.rows, q.id), q), q.now);
      case Carry(thread) => CarriedCore(s.rows, s.readings[thread].q.id, s.readings[thread].decision, s.readings[thread].q.now);
      case _ =>
    }
  }

  lemma HasRowStep(s: State, a: Action, c: Creation)
    requires HasRow(s, c) && Enabled(s, a)
    ensures HasRow(Step(s, a), c)
  {
    StepKeeps(s, a);
    StepCore(s, a);
    var i :| 0 <= i < |s.rows| && Keeps(s.rows[i], c);
    assert Keeps(Step(s, a).rows[i], c);
  }

  lemma AlwaysStamped(s: State)
    requires Reachable(s)
    ensures AllStamped(s.rows)
  {
    var inv := (s: State) => Inv(s) && AllStamped(s.rows);
    forall s, a, t | inv(s) && Next()(s, a, t)
      ensures inv(t)
    {
      StepKeeps(s, a);
      StepCore(s, a);
    }
    Kept(Next(), inv, INITIAL, s);
  }

  lemma InsertedRow(s: State, a: Action, c: Creation)
    requires Inv(s) && AllStamped(s.rows) && Enabled(s, a) && Inserts(s, a, c)
    ensures HasRow(Step(s, a), c)
    ensures var rows := Step(s, a).rows; |rows| == |s.rows| + 1 && IsFresh(rows[|s.rows|], c)
  {
    StepKeeps(s, a);
    var rows := Step(s, a).rows;
    assert rows == s.rows + [NewRow(c)];
    assert Keeps(rows[|s.rows|], c);
  }

  /** The request is about this creation, with its code. */
  predicate Matches(q: Request, c: Creation) {
    && q.email == c.email && q.purpose == c.purpose && q.digest == c.digest
    && (q.expectedUser.Some? ==> q.expectedUser.value == c.userId) && (q.ip != "" ==> q.ip == c.ip)
  }

  /** From the insertion of a challenge on, a request with its id is accepted exactly when it
      matches the creation, comes before the challenge expires, and finds it delivered, open,
      and below its limit of failures. */
  lemma RightCodeAccepted(s0: State, a: Action, c: Creation, s: State, q: Request) returns (i: nat)
    requires Reachable(s0) && Enabled(s0, a) && Inserts(s0, a, c)
    requires Reaches(Next(), Step(s0, a), s)
    requires q.id == c.id && q.now > 0 && c.purpose in PURPOSES
    ensures i < |s.rows| && s.rows[i].id == c.id
    ensures Outcome(s.rows, q).None? <==>
            Matches(q, c) && q.now < c.now + TTL_SECONDS && Live(s.rows[i]) && s.rows[i].attempts < MAX_ATTEMPTS
  {
    ReachableKept(s0);
    AlwaysStamped(s0);
    InsertedRow(s0, a, c);
    RowStays(Step(s0, a), c, s);
    i :| 0 <= i < |s.rows| && Keeps(s.rows[i], c);
    VerifiedMeans(s.rows, q, i);
  }

  lemma RowStays(from: State, c: Creation, s: State)
    requires HasRow(from, c) && Reaches(Next(), from, s)
    ensures HasRow(s, c)
  {
    var inv := (s: State) => HasRow(s, c);
    forall s, a, t | inv(s) && Next()(s, a, t)
      ensures inv(t)
    {
      HasRowStep(s, a, c);
    }
    Kept(Next(), inv, from, s);
  }
}
