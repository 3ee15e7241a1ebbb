/** A run in which an email sees as many wrong codes within an hour as the limits allow: a
    batch of challenges created just before the hour and guessed at its start, and another
    one created and guessed at its end. */
module WorstHour {
  import opened EmailChallenge
  import opened Runs
  import opened ChallengeRuns
  import opened CreationLimits
  import opened VerificationLimits
  import opened Sizes

  function Purpose(k: nat): string
    requires k < 4
  {
    ["registration", "password_setup", "email_binding", "login_security"][k]
  }

  lemma PurposesDiffer(j: nat, k: nat)
    requires j < 4 && k < 4
    ensures Purpose(k) in PURPOSES && (j != k ==> Purpose(j) != Purpose(k))
  {
    assert Purpose(0)[0] == 'r' && Purpose(1)[0] == 'p' && Purpose(2)[0] == 'e' && Purpose(3)[0] == 'l';
  }

  /** Challenge number n, for the purpose with number k. */
  ghost function Asked(email: string, n: nat, k: nat, now: int): Creation
    requires k < 4
  {
    Creation(Name(n), 0, email, Purpose(k), "", "", now)
  }

  /** All challenges are of this email and named by their number. */
  ghost predicate Plain(rows: seq<Row>, email: string) {
    forall i: nat | i < |rows| ::
      rows[i].id == Name(i) && rows[i].email == email && rows[i].resendAt == rows[i].createdAt + RESEND_SECONDS
  }

  ghost predicate CreatedBy(rows: seq<Row>, time: int) {
    forall i | 0 <= i < |rows| :: rows[i].createdAt <= time
  }

  lemma PlainUnique(rows: seq<Row>, email: string)
    requires Plain(rows, email)
    ensures UniqueIds(rows)
    ensures forall n | n >= |rows| :: Find(rows, Name(n)).None?
  {
    forall i: nat, j: nat | i < j < |rows|
      ensures rows[i].id != rows[j].id
    {
      NamesDiffer(i, j);
    }
    forall n | n >= |rows|
      ensures Find(rows, Name(n)).None?
    {
      forall i: nat | i < |rows|
        ensures rows[i].id != Name(n)
      {
        NamesDiffer(i, n);
      }
    }
  }

  /** Something that all steps with these widths keep. */
  ghost predicate Careful(p: State -> bool, email: string, cw: nat, vw: nat) {
    Preserves(NextCareful(email, cw, vw), p)
  }

  lemma CarefulAdds(p: State -> bool, email: string, cw: nat, vw: nat)
    requires Careful(p, email, cw, vw)
    ensures Adding(p, ByEmail(email), cw)
  {
    forall s, a, t | p(s) && NextAdding(ByEmail(email), cw)(s, a, t)
      ensures p(t)
    {
      assert NextCareful(email, cw, vw)(s, a, t);
    }
  }

  lemma CarefulGuesses(p: State -> bool, email: string, cw: nat, vw: nat, id: string)
    requires Careful(p, email, cw, vw)
    ensures Preserves(NextGuessing(id, vw), p)
  {
    forall s, a, t | p(s) && NextGuessing(id, vw)(s, a, t)
      ensures p(t)
    {
      assert NextCareful(email, cw, vw)(s, a, t);
    }
  }

  // ---- one challenge is sent and guessed at

  lemma {:induction false} HourSize(failures: seq<Failure>, b: State, i: nat, n: nat, after: int, until: int)
    requires i < |b.rows| && after < b.clock <= until
    ensures FailuresIn(failures + Failures(b, i, n), b.rows[i].email, after, until)
         == FailuresIn(failures, b.rows[i].email, after, until) + n
  {
    if n == 0 {
      assert failures + Failures(b, i, 0) == failures;
    } else {
      var f := Failure(b.rows[i].id, b.rows[i].email, b.clock);
      HourSize(failures, b, i, n - 1, after, until);
      assert (failures + Failures(b, i, n))[..|failures| + n - 1] == failures + Failures(b, i, n - 1);
      assert (failures + Failures(b, i, n))[|failures| + n - 1] == f;
    }
  }

  /** A delivery opens its row and closes others of the same purpose. */
  lemma DeliveryOpens(rows: seq<Row>, email: string, i: nat, now: int)
    requires Plain(rows, email) && i < |rows| && now > 0
    requires rows[i].status == Pending && rows[i].invalidatedAt == 0 && rows[i].consumedAt == 0
    ensures var rows' := MarkedSent(rows, rows[i].id, now);
            && |rows'| == |rows| && rows'[i] == Deliver(now)(rows[i])
            && (forall j | 0 <= j < |rows| :: SameCore(rows[j], rows'[j]))
            && (forall j | 0 <= j < |rows| && rows[j].purpose != rows[i].purpose :: rows'[j] == rows[j])
  {
    PlainUnique(rows, email);
    FindIs(rows, i);
    CountOne(rows, Sendable(rows[i].id), i);
  }

  /** What does not change for the other challenges. */
  ghost predicate OnlyPurpose(s: State, s': State, i: nat)
    requires i < |s.rows|
  {
    && |s'.rows| == |s.rows| && s'.creators == s.creators && s'.readings == map[]
    && (forall j | 0 <= j < |s.rows| :: SameCore(s.rows[j], s'.rows[j]))
    && forall j | 0 <= j < |s.rows| && s.rows[j].purpose != s.rows[i].purpose :: s'.rows[j] == s.rows[j]
  }

  lemma Delivered(p: State -> bool, s: State, email: string, cw: nat, vw: nat, i: nat, k: nat, x: int, now: int)
    returns (b: State)
    requires Careful(p, email, cw, vw) && p(s) && Plain(s.rows, email) && s.readings == map[]
    requires i < |s.rows| && k < 4 && s.rows[i] == NewRow(Asked(email, i, k, x))
    requires s.clock <= now && 0 < now < x + TTL_SECONDS
    ensures p(b) && Guessable(b, i) && b.clock == now && b.failures == s.failures
    ensures OnlyPurpose(s, b, i)
  {
    DeliveryOpens(s.rows, email, i, now);
    var a := MarkSent(s.rows[i].id, now);
    b := Step(s, a);
    assert Enabled(s, a) && Fits(s, a, ByEmail(email), cw);
    assert NextCareful(email, cw, vw)(s, a, b);
    PlainUnique(s.rows, email);
    PurposesDiffer(k, k);
  }

  /** Sent and guessed at until it is locked. */
  lemma SentAndGuessed(p: State -> bool, s: State, email: string, cw: nat, vw: nat, i: nat, k: nat, x: int, now: int, t: int)
    returns (s': State)
    requires Careful(p, email, cw, vw) && p(s) && Plain(s.rows, email) && s.readings == map[] && vw >= 1
    requires i < |s.rows| && k < 4 && s.rows[i] == NewRow(Asked(email, i, k, x))
    requires s.clock <= now && 0 < now < x + TTL_SECONDS && t < now <= t + HOUR
    ensures p(s') && Plain(s'.rows, email) && s'.clock == now && OnlyPurpose(s, s', i)
    ensures FailuresIn(s'.failures, email, t, t + HOUR) == FailuresIn(s.failures, email, t, t + HOUR) + (MAX_ATTEMPTS - 1 + vw)
  {
    var b := Delivered(p, s, email, cw, vw, i, k, x, now);
    CarefulGuesses(p, email, cw, vw, b.rows[i].id);
    var n := GuessAll(p, b, i, vw);
    s' := Standing(b, i, n, now, map[]);
    HourSize(b.failures, b, i, n, t, t + HOUR);
    GuessedOnly(s, b, i, n, now);
    assert forall j: nat | j < |s.rows| :: SameCore(s.rows[j], s'.rows[j]);
  }

  lemma GuessedOnly(s: State, b: State, i: nat, n: nat, now: int)
    requires i < |s.rows| && OnlyPurpose(s, b, i)
    ensures OnlyPurpose(s, Standing(b, i, n, now, map[]), i)
  {
  }

  // ---- four challenges at once, one for each purpose

  ghost function Four(email: string, n: nat, x: int, k: nat): (rows: seq<Row>)
    requires k <= 4
    ensures |rows| == k && forall i: nat | i < k :: rows[i] == NewRow(Asked(email, n + i, i, x))
  {
    seq(k, i requires 0 <= i < k => NewRow(Asked(email, n + i, i, x)))
  }

  lemma PlainFour(rows: seq<Row>, email: string, x: int, k: nat)
    requires Plain(rows, email) && k <= 4
    ensures Plain(rows + Four(email, |rows|, x, k), email)
  {
  }

  lemma {:induction false} CountFour(rows: seq<Row>, email: string, x: int, k: nat)
    requires k <= 4 && CreatedBy(rows, x - HOUR)
    ensures Count(rows + Four(email, |rows|, x, k), CreatedSince(email, x - HOUR)) == k
  {
    var p := CreatedSince(email, x - HOUR);
    if k == 0 {
      assert rows + Four(email, |rows|, x, 0) == rows;
      CountNone(rows, p);
    } else {
      var r := NewRow(Asked(email, |rows| + k - 1, k - 1, x));
      CountFour(rows, email, x, k - 1);
      CountAdd(rows + Four(email, |rows|, x, k - 1), r, p);
      assert rows + Four(email, |rows|, x, k) == rows + Four(email, |rows|, x, k - 1) + [r];
    }
  }

  lemma FourthFits(rows: seq<Row>, email: string, x: int, k: nat)
    requires Plain(rows, email) && CreatedBy(rows, x - HOUR) && k < 4
    ensures Refusal(rows + Four(email, |rows|, x, k), Asked(email, |rows| + k, k, x)).None?
  {
    var rows', c := rows + Four(email, |rows|, x, k), Asked(email, |rows| + k, k, x);
    CountFour(rows, email, x, k);
    PlainFour(rows, email, x, k);
    PlainUnique(rows', email);
    PurposesDiffer(k, k);
    var latest := Latest(rows', email, c.purpose);
    if latest.Some? {
      var i: nat :| i < |rows'| && rows'[i] == latest.value;
      if i >= |rows| {
        PurposesDiffer(i - |rows|, k);
      }
    }
  }

  ghost function AfterFour(s: State, email: string, x: int, k: nat): State
    requires k <= 4
  {
    s.(rows := s.rows + Four(email, |s.rows|, x, k), clock := if k == 0 then s.clock else x)
  }

  lemma {:induction false} FourCreated(p: State -> bool, s: State, email: string, cw: nat, vw: nat, x: int, k: nat)
    requires Careful(p, email, cw, vw) && p(s) && Plain(s.rows, email) && s.creators == map[] && cw >= 1
    requires 0 < x && s.clock <= x && CreatedBy(s.rows, x - HOUR) && k <= 4
    ensures p(AfterFour(s, email, x, k))
  {
    if k == 0 {
      assert s.rows + Four(email, |s.rows|, x, 0) == s.rows;
      assert AfterFour(s, email, x, 0) == s;
    } else {
      FourCreated(p, s, email, cw, vw, x, k - 1);
      FourthFits(s.rows, email, x, k - 1);
      CarefulAdds(p, email, cw, vw);
      FourthCreated(p, s, email, cw, x, k - 1);
    }
  }

  lemma FourthCreated(p: State -> bool, s: State, email: string, cw: nat, x: int, k: nat)
    requires Adding(p, ByEmail(email), cw) && cw >= 1 && s.creators == map[] && 0 < x && s.clock <= x && k < 4
    requires p(AfterFour(s, email, x, k))
    requires Refusal(s.rows + Four(email, |s.rows|, x, k), Asked(email, |s.rows| + k, k, x)).None?
    ensures p(AfterFour(s, email, x, k + 1))
  {
    var before, c := AfterFour(s, email, x, k), Asked(email, |s.rows| + k, k, x);
    assert Creating(map[], ByEmail(email)) == {};
    ByCreate(p, ByEmail(email), cw, before, c);
    assert before.rows + [NewRow(c)] == s.rows + Four(email, |s.rows|, x, k + 1);
  }

  // ---- a crowd that has read and waits to insert

  /** Creation number j of the crowd, after n other challenges. */
  ghost function Extra(email: string, n: nat, y: int, j: nat): Creator {
    Creator(Asked(email, n + j, 0, y), 3)
  }

  ghost function CrowdOf(email: string, n: nat, y: int, lo: nat, hi: nat): Creators {
    map j: nat | lo <= j < hi :: Extra(email, n, y, j)
  }

  lemma CrowdEnds(email: string, n: nat, y: int, lo: nat, hi: nat)
    requires lo < hi
    ensures CrowdOf(email, n, y, lo, hi) == CrowdOf(email, n, y, lo, hi - 1)[hi - 1 := Extra(email, n, y, hi - 1)]
    ensures CrowdOf(email, n, y, lo, hi) - {lo} == CrowdOf(email, n, y, lo + 1, hi)
    ensures hi - 1 !in CrowdOf(email, n, y, lo, hi - 1)
    ensures lo in CrowdOf(email, n, y, lo, hi) && CrowdOf(email, n, y, lo, hi)[lo] == Extra(email, n, y, lo)
  {
  }

  lemma CrowdReads(rows: seq<Row>, email: string, y: int, c: Creation)
    requires Plain(rows, email) && c.email == email && c.ip == "" && c.now == y
    requires CreatedBy(rows, y - RESEND_SECONDS)
    requires Count(rows, CreatedSince(email, y - HOUR)) < EMAIL_HOURLY_LIMIT
    ensures !EmailFull(rows, c) && !AddressFull(rows, c) && !TooSoon(rows, c)
  {
    var latest := Latest(rows, email, c.purpose);
    if latest.Some? {
      var i: nat :| i < |rows| && rows[i] == latest.value;
    }
  }

  lemma {:induction false} CrowdWaits(p: State -> bool, s: State, email: string, cw: nat, vw: nat, y: int, hi: nat)
    requires Careful(p, email, cw, vw) && p(s) && Plain(s.rows, email) && s.creators == map[] && hi <= cw
    requires 0 < y && s.clock <= y && CreatedBy(s.rows, y - RESEND_SECONDS)
    requires Count(s.rows, CreatedSince(email, y - HOUR)) < EMAIL_HOURLY_LIMIT
    ensures p(s.(creators := CrowdOf(email, |s.rows|, y, 0, hi), clock := if hi == 0 then s.clock else y))
    decreases hi
  {
    var n := |s.rows|;
    if hi == 0 {
      assert CrowdOf(email, n, y, 0, 0) == map[];
      assert s.(creators := CrowdOf(email, n, y, 0, 0), clock := s.clock) == s;
    } else {
      var before := s.(creators := CrowdOf(email, n, y, 0, hi - 1), clock := if hi == 1 then s.clock else y);
      CrowdWaits(p, s, email, cw, vw, y, hi - 1);
      CrowdEnds(email, n, y, 0, hi);
      WhereBelow(before.creators, ForKey(ByEmail(email)), 0, hi - 1);
      CrowdReads(s.rows, email, y, Asked(email, n + hi - 1, 0, y));
      PurposesDiffer(0, 0);
      CarefulAdds(p, email, cw, vw);
      ByThree(p, ByEmail(email), cw, before, hi - 1, Asked(email, n + hi - 1, 0, y));
      assert before.creators[hi - 1 := Extra(email, n, y, hi - 1)] == CrowdOf(email, n, y, 0, hi);
    }
  }

  // ---- a batch of both

  /** The four challenges from number m on are as created. */
  ghost predicate Waits(rows: seq<Row>, email: string, n: nat, x: int, k: nat)
    requires k <= 4
  {
    forall j: nat | k <= j < 4 :: AsCreated(rows, email, n, x, j)
  }

  ghost predicate AsCreated(rows: seq<Row>, email: string, n: nat, x: int, j: nat)
    requires j < 4
  {
    n + j < |rows| && rows[n + j] == NewRow(Asked(email, n + j, j, x))
  }

  lemma OthersWait(s: State, s': State, email: string, n: nat, x: int, k: nat)
    requires k < 4 && n + k < |s.rows| && Waits(s.rows, email, n, x, k) && OnlyPurpose(s, s', n + k)
    ensures Waits(s'.rows, email, n, x, k + 1)
  {
    forall j: nat | k + 1 <= j < 4
      ensures AsCreated(s'.rows, email, n, x, j)
    {
      assert AsCreated(s.rows, email, n, x, j) && AsCreated(s.rows, email, n, x, k);
      PurposesDiffer(j, k);
    }
  }

  lemma StillCreatedBy(s: State, s': State, i: nat, time: int)
    requires i < |s.rows| && OnlyPurpose(s, s', i) && CreatedBy(s.rows, time)
    ensures CreatedBy(s'.rows, time)
  {
  }

  /** The four are sent and guessed at, one after the other. */
  lemma {:induction false} FourGuessed(p: State -> bool, s: State, email: string, cw: nat, vw: nat, n: nat, x: int,
                                       now: int, t: int, k: nat)
    returns (s': State)
    requires Careful(p, email, cw, vw) && p(s) && Plain(s.rows, email) && s.readings == map[] && vw >= 1 && k <= 4
    requires Waits(s.rows, email, n, x, 0) && CreatedBy(s.rows, x)
    requires s.clock <= now && 0 < now < x + TTL_SECONDS && t < now <= t + HOUR
    ensures p(s') && Plain(s'.rows, email) && s'.readings == map[] && s'.creators == s.creators && s'.clock <= now
    ensures |s'.rows| == |s.rows| && Waits(s'.rows, email, n, x, k) && CreatedBy(s'.rows, x)
    ensures FailuresIn(s'.failures, email, t, t + HOUR) == FailuresIn(s.failures, email, t, t + HOUR) + (MAX_ATTEMPTS - 1 + vw) * k
  {
    if k == 0 {
      s' := s;
    } else {
      var before := FourGuessed(p, s, email, cw, vw, n, x, now, t, k - 1);
      assert AsCreated(before.rows, email, n, x, k - 1);
      s' := SentAndGuessed(p, before, email, cw, vw, n + k - 1, k - 1, x, now, t);
      OthersWait(before, s', email, n, x, k - 1);
      StillCreatedBy(before, s', n + k - 1, x);
      OneMore(MAX_ATTEMPTS - 1 + vw, k - 1);
    }
  }

  lemma OneInserted(p: State -> bool, s: State, email: string, cw: nat, vw: nat, n: nat, y: int, j: nat) returns (s': State)
    requires Careful(p, email, cw, vw) && p(s) && Plain(s.rows, email) && |s.rows| == n + j && j < cw
    requires s.creators == CrowdOf(email, n, y, j, cw) && CreatedBy(s.rows, y)
    ensures p(s') && s' == s.(rows := s.rows + [NewRow(Asked(email, n + j, 0, y))], creators := CrowdOf(email, n, y, j + 1, cw))
    ensures Plain(s'.rows, email) && CreatedBy(s'.rows, y)
  {
    CrowdEnds(email, n, y, j, cw);
    PlainUnique(s.rows, email);
    CarefulAdds(p, email, cw, vw);
    ByInsert(p, ByEmail(email), cw, s, j);
    s' := s.(rows := s.rows + [NewRow(Asked(email, n + j, 0, y))], creators := s.creators - {j});
  }

  /** The crowd inserts one by one, each when the one before has been guessed at. */
  lemma {:induction false} CrowdGuessed(p: State -> bool, s: State, email: string, cw: nat, vw: nat, n: nat, y: int,
                                        now: int, t: int, j: nat)
    returns (s': State)
    requires Careful(p, email, cw, vw) && p(s) && Plain(s.rows, email) && s.readings == map[] && vw >= 1 && j <= cw
    requires |s.rows| == n && s.creators == CrowdOf(email, n, y, 0, cw) && CreatedBy(s.rows, y)
    requires s.clock <= now && 0 < now < y + TTL_SECONDS && t < now <= t + HOUR
    ensures p(s') && Plain(s'.rows, email) && s'.readings == map[] && s'.clock <= now
    ensures |s'.rows| == n + j && s'.creators == CrowdOf(email, n, y, j, cw) && CreatedBy(s'.rows, y)
    ensures FailuresIn(s'.failures, email, t, t + HOUR) == FailuresIn(s.failures, email, t, t + HOUR) + (MAX_ATTEMPTS - 1 + vw) * j
  {
    if j == 0 {
      s' := s;
    } else {
      var before := CrowdGuessed(p, s, email, cw, vw, n, y, now, t, j - 1);
      var more := OneInserted(p, before, email, cw, vw, n, y, j - 1);
      s' := SentAndGuessed(p, more, email, cw, vw, n + j - 1, 0, y, now, t);
      StillCreatedBy(more, s', n + j - 1, y);
      OneMore(MAX_ATTEMPTS - 1 + vw, j - 1);
    }
  }

  lemma FourRows(rows: seq<Row>, email: string, x: int)
    requires Plain(rows, email) && CreatedBy(rows, x - HOUR)
    ensures var rows' := rows + Four(email, |rows|, x, 4);
            && Plain(rows', email) && Waits(rows', email, |rows|, x, 0) && CreatedBy(rows', x)
            && Count(rows', CreatedSince(email, x + RESEND_SECONDS - HOUR)) < EMAIL_HOURLY_LIMIT
  {
    var rows' := rows + Four(email, |rows|, x, 4);
    PlainFour(rows, email, x, 4);
    CountFour(rows, email, x, 4);
    CountImplies(rows', CreatedSince(email, x + RESEND_SECONDS - HOUR), CreatedSince(email, x - HOUR));
  }

  /** Four challenges at x, and a crowd of cw a minute later. */
  lemma AllCreated(p: State -> bool, s: State, email: string, cw: nat, vw: nat, x: int) returns (s': State)
    requires Careful(p, email, cw, vw) && p(s) && Plain(s.rows, email) && s.creators == map[] && s.readings == map[] && cw >= 1
    requires 0 < x && s.clock <= x && CreatedBy(s.rows, x - HOUR)
    ensures p(s') && Plain(s'.rows, email) && s'.readings == map[] && s'.failures == s.failures && s'.clock == x + RESEND_SECONDS
    ensures |s'.rows| == |s.rows| + 4 && Waits(s'.rows, email, |s.rows|, x, 0) && CreatedBy(s'.rows, x)
    ensures s'.creators == CrowdOf(email, |s.rows| + 4, x + RESEND_SECONDS, 0, cw)
  {
    var four, y := AfterFour(s, email, x, 4), x + RESEND_SECONDS;
    FourCreated(p, s, email, cw, vw, x, 4);
    FourRows(s.rows, email, x);
    CrowdWaits(p, four, email, cw, vw, y, cw);
    s' := four.(creators := CrowdOf(email, |four.rows|, y, 0, cw), clock := y);
  }

  /** One batch is created, and guessed at later. */
  lemma Batch(p: State -> bool, s: State, email: string, cw: nat, vw: nat, x: int, now: int, t: int) returns (s': State)
    requires Careful(p, email, cw, vw) && p(s) && Plain(s.rows, email) && cw >= 1 && vw >= 1
    requires s.creators == map[] && s.readings == map[]
    requires 0 < x && s.clock <= x && CreatedBy(s.rows, x - HOUR)
    requires x + RESEND_SECONDS <= now < x + TTL_SECONDS && t < now <= t + HOUR
    ensures p(s') && Plain(s'.rows, email) && s'.creators == map[] && s'.readings == map[]
    ensures s'.clock <= now && CreatedBy(s'.rows, x + RESEND_SECONDS)
    ensures FailuresIn(s'.failures, email, t, t + HOUR)
         == FailuresIn(s.failures, email, t, t + HOUR) + (MAX_ATTEMPTS - 1 + vw) * (EMAIL_HOURLY_LIMIT - 1 + cw)
  {
    var n, y := |s.rows|, x + RESEND_SECONDS;
    var created := AllCreated(p, s, email, cw, vw, x);
    var four := FourGuessed(p, created, email, cw, vw, n, x, now, t, 4);
    s' := CrowdGuessed(p, four, email, cw, vw, n + 4, y, now, t, cw);
    assert CrowdOf(email, n + 4, y, cw, cw) == map[];
    Distributes(MAX_ATTEMPTS - 1 + vw, 4, cw);
  }

  lemma Distributes(a: nat, m: nat, n: nat)
    ensures a * m + a * n == a * (m + n)
  {
  }

  lemma Twice(a: nat, n: nat)
    ensures a * n + a * n == a * (2 * n)
  {
  }

  /** The first batch is guessed at as soon as the hour has begun, an hour before the last
      creation of the second one, which is guessed at when the hour ends. */
  lemma TwoBatches(p: State -> bool, email: string, cw: nat, vw: nat) returns (s: State)
    requires Careful(p, email, cw, vw) && p(INITIAL) && cw >= 1 && vw >= 1
    ensures p(s)
    ensures FailuresIn(s.failures, email, 121, 121 + HOUR) == (MAX_ATTEMPTS - 1 + vw) * (2 * (EMAIL_HOURLY_LIMIT - 1 + cw))
  {
    var first := Batch(p, INITIAL, email, cw, vw, 1, 122, 121);
    s := Batch(p, first, email, cw, vw, 3661, 3721, 121);
    Twice(MAX_ATTEMPTS - 1 + vw, EMAIL_HOURLY_LIMIT - 1 + cw);
  }

  /** The bound on the wrong codes that an email sees in an hour is met, whatever the widths;
      without overlap by fifty of them. */
  lemma GuessesPerHourMet(email: string, cw: nat, vw: nat) returns (s: State, t: int)
    requires cw >= 1 && vw >= 1
    ensures Reaches(NextCareful(email, cw, vw), INITIAL, s)
    ensures FailuresIn(s.failures, email, t, t + HOUR) == (MAX_ATTEMPTS - 1 + vw) * (2 * (EMAIL_HOURLY_LIMIT - 1 + cw))
    ensures cw == vw == 1 ==> FailuresIn(s.failures, email, t, t + HOUR) == 50
  {
    ReachedKept(NextCareful(email, cw, vw), INITIAL);
    s := TwoBatches(ReachedFrom(NextCareful(email, cw, vw), INITIAL), email, cw, vw);
    t := 121;
  }
}
