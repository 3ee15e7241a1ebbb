/** How many challenges an hour can see when creations overtake each other between their
    SELECTs and their INSERT: a limit L with at most w creations at a time admits exactly
    L - 1 + w. */
module CreationLimits {
  import opened Sizes
  import opened EmailChallenge
  import opened Runs
  import opened ChallengeRuns

  /** What a limit counts: the challenges for an email or those from an address. */
  datatype Key = ByEmail(email: string) | ByAddress(ip: string)

  predicate InKey(key: Key, c: Creation) {
    match key
    case ByEmail(email) => c.email == email
    case ByAddress(ip) => c.ip == ip
  }

  function Limit(key: Key): nat {
    if key.ByEmail? then EMAIL_HOURLY_LIMIT else IP_HOURLY_LIMIT
  }

  predicate IsKey(key: Key) {
    key.ByAddress? ==> key.ip != ""
  }

  function CreatedWithin(key: Key, after: int, until: int): Row -> bool {
    (r: Row) => (match key case ByEmail(email) => r.email == email case ByAddress(ip) => r.ip == ip) && after < r.createdAt <= until
  }

  type Creators = map<nat, Creator>

  /** The creations that are under way. */
  function Creating(creators: Creators, key: Key): set<nat> {
    Where(creators, ForKey(key))
  }

  function ForKey(key: Key): Creator -> bool {
    (x: Creator) => InKey(key, x.c)
  }

  predicate Within(c: Creation, after: int) {
    after < c.now <= after + HOUR
  }

  /** Dated in the hour, with the SELECT of the limit behind it. */
  predicate IsAdmitted(key: Key, after: int, x: Creator) {
    InKey(key, x.c) && Within(x.c, after) && x.selects >= (if key.ByEmail? then 1 else 2)
  }

  function Admitted(creators: Creators, key: Key, after: int): set<nat> {
    Where(creators, AdmittedTo(key, after))
  }

  function AdmittedTo(key: Key, after: int): Creator -> bool {
    (x: Creator) => IsAdmitted(key, after, x)
  }

  /** At most w creations of the key at a time; one in a transaction counts while it runs. */
  predicate Fits(s: State, a: Action, key: Key, w: nat) {
    match a
    case Create(c) => InKey(key, c) ==> |Creating(s.creators, key)| < w
    case CountEmail(_, c) => InKey(key, c) ==> |Creating(s.creators, key)| < w
    case _ => true
  }

  function NextCreating(key: Key, w: nat): (State, Action, State) -> bool {
    (s, a, t) => Enabled(s, a) && t == Step(s, a) && Fits(s, a, key, w)
  }

  ghost predicate HourKept(rows: seq<Row>, creators: Creators, key: Key, w: nat, after: int) {
    && (forall t | t in creators :: creators[t].selects >= 1)
    && |Creating(creators, key)| <= w
    && Count(rows, CreatedWithin(key, after, after + HOUR)) + |Admitted(creators, key, after)| <= Limit(key) - 1 + w
  }

  predicate Full(rows: seq<Row>, key: Key, c: Creation) {
    if key.ByEmail? then EmailFull(rows, c) else AddressFull(rows, c)
  }

  /** A SELECT that finds room has seen fewer rows of every hour that the creation is in. */
  lemma RoomInHour(rows: seq<Row>, key: Key, c: Creation, after: int)
    requires IsKey(key) && InKey(key, c) && Within(c, after) && !Full(rows, key, c)
    ensures Count(rows, CreatedWithin(key, after, after + HOUR)) <= Limit(key) - 1
  {
    match key
    case ByEmail(email) =>
      CountImplies(rows, CreatedWithin(key, after, after + HOUR), CreatedSince(email, c.now - HOUR));
    case ByAddress(ip) =>
      CountImplies(rows, CreatedWithin(key, after, after + HOUR), CreatedFrom(ip, c.now - HOUR));
  }

  lemma AdmittedSize(creators: Creators, key: Key, after: int)
    ensures |Admitted(creators, key, after)| <= |Creating(creators, key)|
  {
    WhereImplies(creators, AdmittedTo(key, after), ForKey(key));
  }

  lemma CountAdd(rows: seq<Row>, r: Row, p: Row -> bool)
    ensures Count(rows + [r], p) == Count(rows, p) + (if p(r) then 1 else 0)
  {
    assert (rows + [r])[..|rows|] == rows;
  }

  // What changing one creator does to the two numbers.

  lemma CreatorAdded(creators: Creators, key: Key, after: int, thread: nat, x: Creator)
    requires thread !in creators
    ensures |Creating(creators[thread := x], key)| == |Creating(creators, key)| + (if InKey(key, x.c) then 1 else 0)
    ensures |Admitted(creators[thread := x], key, after)| == |Admitted(creators, key, after)| + (if IsAdmitted(key, after, x) then 1 else 0)
  {
    WhereAdded(creators, ForKey(key), thread, x);
    WhereAdded(creators, AdmittedTo(key, after), thread, x);
  }

  lemma CreatorRemoved(creators: Creators, key: Key, after: int, thread: nat)
    requires thread in creators
    ensures |Creating(creators - {thread}, key)| == |Creating(creators, key)| - (if InKey(key, creators[thread].c) then 1 else 0)
    ensures |Admitted(creators - {thread}, key, after)|
         == |Admitted(creators, key, after)| - (if IsAdmitted(key, after, creators[thread]) then 1 else 0)
  {
    WhereRemoved(creators, ForKey(key), thread);
    WhereRemoved(creators, AdmittedTo(key, after), thread);
  }

  lemma CreatorMoved(creators: Creators, key: Key, after: int, thread: nat, x: Creator)
    requires thread in creators && x.c == creators[thread].c
    ensures |Creating(creators[thread := x], key)| == |Creating(creators, key)|
    ensures IsAdmitted(key, after, x) == IsAdmitted(key, after, creators[thread]) ==>
              |Admitted(creators[thread := x], key, after)| == |Admitted(creators, key, after)|
  {
    var rest := creators - {thread};
    CreatorRemoved(creators, key, after, thread);
    CreatorAdded(rest, key, after, thread, x);
    assert rest[thread := x] == creators[thread := x];
  }

  lemma CreateStep(s: State, c: Creation, key: Key, w: nat, after: int)
    requires IsKey(key) && HourKept(s.rows, s.creators, key, w, after) && Fits(s, Create(c), key, w)
    ensures HourKept(Created(s.rows, c), s.creators, key, w, after)
  {
    if Refusal(s.rows, c).None? {
      CountAdd(s.rows, NewRow(c), CreatedWithin(key, after, after + HOUR));
      if InKey(key, c) && Within(c, after) {
        RoomInHour(s.rows, key, c, after);
        AdmittedSize(s.creators, key, after);
      }
    }
  }

  lemma CountEmailStep(s: State, thread: nat, c: Creation, key: Key, w: nat, after: int)
    requires IsKey(key) && HourKept(s.rows, s.creators, key, w, after) && thread !in s.creators
    requires Fits(s, CountEmail(thread, c), key, w) && !EmailFull(s.rows, c)
    ensures HourKept(s.rows, s.creators[thread := Creator(c, 1)], key, w, after)
  {
    var x := Creator(c, 1);
    CreatorAdded(s.creators, key, after, thread, x);
    if IsAdmitted(key, after, x) {
      RoomInHour(s.rows, key, c, after);
      AdmittedSize(s.creators[thread := x], key, after);
    }
  }

  lemma PassStep(s: State, thread: nat, key: Key, w: nat, after: int)
    requires IsKey(key) && HourKept(s.rows, s.creators, key, w, after) && thread in s.creators
    requires Passes(s.rows, s.creators[thread])
    ensures HourKept(s.rows, s.creators[thread := s.creators[thread].(selects := s.creators[thread].selects + 1)], key, w, after)
  {
    var x := s.creators[thread];
    var x' := x.(selects := x.selects + 1);
    CreatorMoved(s.creators, key, after, thread, x');
    if IsAdmitted(key, after, x') && !IsAdmitted(key, after, x) {
      RoomInHour(s.rows, key, x.c, after);
      AdmittedSize(s.creators[thread := x'], key, after);
    }
  }

  lemma LeaveStep(s: State, thread: nat, key: Key, w: nat, after: int, rows': seq<Row>)
    requires HourKept(s.rows, s.creators, key, w, after) && thread in s.creators
    requires rows' == s.rows || (rows' == s.rows + [NewRow(s.creators[thread].c)] && s.creators[thread].selects >= 3)
    ensures HourKept(rows', s.creators - {thread}, key, w, after)
  {
    CreatorRemoved(s.creators, key, after, thread);
    if rows' != s.rows {
      CountAdd(s.rows, NewRow(s.creators[thread].c), CreatedWithin(key, after, after + HOUR));
    }
  }

  predicate IsCreation(a: Action) {
    a.Create? || a.CountEmail? || a.Proceed?
  }

  lemma OthersRewrite(s: State, a: Action)
    requires Inv(s) && Enabled(s, a) && !IsCreation(a)
    ensures Rewritten(s.rows, Step(s, a).rows) && Step(s, a).creators == s.creators
  {
    if a.MarkSent? || a.MarkFailed? {
      DeliveryRewrites(s, a);
    } else {
      VerifyingRewrites(s, a);
    }
  }

  lemma DeliveryRewrites(s: State, a: Action)
    requires Inv(s) && Enabled(s, a) && (a.MarkSent? || a.MarkFailed?)
    ensures Rewritten(s.rows, Step(s, a).rows) && Step(s, a).creators == s.creators
  {
    if a.MarkSent? {
      SentUsed(s.rows, a.id, a.now, []);
    } else {
      FailedRewrites(s.rows, a.id, a.now);
    }
  }

  lemma VerifyingRewrites(s: State, a: Action)
    requires Inv(s) && Enabled(s, a) && (a.Verify? || a.Select? || a.Carry?)
    ensures Rewritten(s.rows, Step(s, a).rows) && Step(s, a).creators == s.creators
  {
    if a.Verify? {
      FinishedRewrites(s, a.q, Decide(Find(s.rows, a.q.id), a.q));
    } else if a.Carry? {
      FinishedRewrites(s, s.readings[a.thread].q, s.readings[a.thread].decision);
    }
  }

  lemma FinishedRewrites(s: State, q: Request, d: Decision)
    requires q.now > 0
    ensures Rewritten(s.rows, Finished(s, q, d).rows) && Finished(s, q, d).creators == s.creators
  {
    CarriedCloses(s.rows, q.id, d, q.now);
  }

  lemma FailedRewrites(rows: seq<Row>, id: string, now: int)
    ensures Rewritten(rows, MarkedFailed(rows, id, now))
  {
  }

  lemma HourStep(s: State, a: Action, key: Key, w: nat, after: int)
    requires IsKey(key) && Inv(s) && HourKept(s.rows, s.creators, key, w, after) && Enabled(s, a) && Fits(s, a, key, w)
    ensures HourKept(Step(s, a).rows, Step(s, a).creators, key, w, after)
  {
    match a {
      case Create(c) =>
        CreateStep(s, c, key, w, after);
      case CountEmail(thread, c) =>
        if !EmailFull(s.rows, c) {
          CountEmailStep(s, thread, c, key, w, after);
        }
      case Proceed(thread) =>
        if s.creators[thread].selects < 3 && Passes(s.rows, s.creators[thread]) {
          PassStep(s, thread, key, w, after);
        } else {
          LeaveStep(s, thread, key, w, after, Step(s, a).rows);
        }
      case _ =>
        OthersRewrite(s, a);
        SameHour(s.rows, Step(s, a).rows, s.creators, key, w, after);
    }
  }

  lemma SameHour(rows: seq<Row>, rows': seq<Row>, creators: Creators, key: Key, w: nat, after: int)
    requires HourKept(rows, creators, key, w, after) && Rewritten(rows, rows')
    ensures HourKept(rows', creators, key, w, after)
  {
    forall i | 0 <= i < |rows|
      ensures CreatedWithin(key, after, after + HOUR)(rows[i]) == CreatedWithin(key, after, after + HOUR)(rows'[i])
    {
      assert SameCore(rows[i], rows'[i]);
    }
    CountSame(rows, rows', CreatedWithin(key, after, after + HOUR));
  }

  /** With at most w creations of a key at a time, an hour sees at most w - 1 challenges more
      than the limit, wherever the hour starts. */
  lemma CreatedBound(s: State, key: Key, w: nat, after: int)
    requires IsKey(key) && Reaches(NextCreating(key, w), INITIAL, s)
    ensures Count(s.rows, CreatedWithin(key, after, after + HOUR)) <= Limit(key) - 1 + w
  {
    var inv := (s: State) => Inv(s) && HourKept(s.rows, s.creators, key, w, after);
    forall s, a, t | inv(s) && NextCreating(key, w)(s, a, t)
      ensures inv(t)
    {
      StepKeeps(s, a);
      HourStep(s, a, key, w, after);
    }
    assert Creating(map[], key) == {} && Admitted(map[], key, after) == {};
    Kept(NextCreating(key, w), inv, INITIAL, s);
  }

  // ---- the pause between challenges of one key

  ghost predicate Paused(rows: seq<Row>, email: string) {
    forall i, j | 0 <= i < j < |rows| && rows[i].email == email && SameKey(rows[i], rows[j]) ::
      rows[i].createdAt + RESEND_SECONDS <= rows[j].createdAt
  }

  /** All challenges of the creation's key are a pause older. */
  ghost predicate Rested(rows: seq<Row>, c: Creation) {
    forall i | 0 <= i < |rows| && rows[i].email == c.email && rows[i].purpose == c.purpose ::
      rows[i].createdAt + RESEND_SECONDS <= c.now
  }

  ghost predicate PauseInv(s: State, email: string) {
    && Paused(s.rows, email) && |Creating(s.creators, ByEmail(email))| <= 1
    && forall t | t in s.creators && s.creators[t].c.email == email && s.creators[t].selects >= 3 :: Rested(s.rows, s.creators[t].c)
  }

  lemma RestedAfter(rows: seq<Row>, c: Creation, clock: int)
    requires Chronicle(rows, clock) && !TooSoon(rows, c)
    ensures Rested(rows, c)
  {
    forall i | 0 <= i < |rows|
      ensures rows[i].resendAt == rows[i].createdAt + RESEND_SECONDS
    {
      assert Dated(rows[i], clock);
    }
    TooSoonIff(rows, c);
  }

  lemma OnlyOne(s: State, email: string, t: nat, u: nat)
    requires |Creating(s.creators, ByEmail(email))| <= 1 && t in Creating(s.creators, ByEmail(email)) && u in Creating(s.creators, ByEmail(email))
    ensures t == u
  {
    if t != u {
      SubsetSize({t, u}, Creating(s.creators, ByEmail(email)));
    }
  }

  lemma PausedRewritten(s: State, a: Action, email: string)
    requires Inv(s) && PauseInv(s, email) && Enabled(s, a) && !IsCreation(a)
    ensures PauseInv(Step(s, a), email)
  {
    var s' := Step(s, a);
    OthersRewrite(s, a);
    forall i, j | 0 <= i < j < |s'.rows| && s'.rows[i].email == email && SameKey(s'.rows[i], s'.rows[j])
      ensures s'.rows[i].createdAt + RESEND_SECONDS <= s'.rows[j].createdAt
    {
      assert SameCore(s.rows[i], s'.rows[i]) && SameCore(s.rows[j], s'.rows[j]);
    }
    forall t | t in s'.creators && s'.creators[t].c.email == email && s'.creators[t].selects >= 3
      ensures Rested(s'.rows, s'.creators[t].c)
    {
      assert Rested(s.rows, s.creators[t].c);
      assert forall i | 0 <= i < |s.rows| :: SameCore(s.rows[i], s'.rows[i]);
    }
    assert Creating(s'.creators, ByEmail(email)) == Creating(s.creators, ByEmail(email));
  }

  lemma PausedCreate(s: State, c: Creation, email: string)
    requires Inv(s) && PauseInv(s, email) && Enabled(s, Create(c)) && Fits(s, Create(c), ByEmail(email), 1)
    ensures PauseInv(Step(s, Create(c)), email)
  {
    var s' := Step(s, Create(c));
    assert Creating(s'.creators, ByEmail(email)) == Creating(s.creators, ByEmail(email));
    if Refusal(s.rows, c).None? {
      RestedAfter(s.rows, c, s.clock);
      forall t | t in s'.creators && s'.creators[t].c.email == email && s'.creators[t].selects >= 3
        ensures Rested(s'.rows, s'.creators[t].c)
      {
        assert t in Creating(s.creators, ByEmail(email));
        assert Rested(s.rows, s.creators[t].c);
      }
    }
  }

  lemma PausedProceed(s: State, thread: nat, email: string)
    requires Inv(s) && PauseInv(s, email) && thread in s.creators
    ensures PauseInv(Step(s, Proceed(thread)), email)
  {
    var s', x := Step(s, Proceed(thread)), s.creators[thread];
    SubsetSize(Creating(s'.creators, ByEmail(email)), Creating(s.creators, ByEmail(email)));
    if x.selects < 3 && Passes(s.rows, x) && x.selects != 1 {
      RestedAfter(s.rows, x.c, s.clock);
    }
    forall t | t in s'.creators && s'.creators[t].c.email == email && s'.creators[t].selects >= 3
      ensures Rested(s'.rows, s'.creators[t].c)
    {
      if t != thread {
        assert Rested(s.rows, s.creators[t].c);
        if x.selects >= 3 && x.c.email == email {
          OnlyOne(s, email, t, thread);
        }
      }
    }
  }

  lemma PausedCount(s: State, thread: nat, c: Creation, email: string)
    requires PauseInv(s, email) && Enabled(s, CountEmail(thread, c)) && Fits(s, CountEmail(thread, c), ByEmail(email), 1)
    ensures PauseInv(Step(s, CountEmail(thread, c)), email)
  {
    var s' := Step(s, CountEmail(thread, c));
    if s'.creators != s.creators {
      WhereAdded(s.creators, ForKey(ByEmail(email)), thread, Creator(c, 1));
    }
    forall t | t in s'.creators && s'.creators[t].c.email == email && s'.creators[t].selects >= 3
      ensures Rested(s'.rows, s'.creators[t].c)
    {
      assert t != thread && Rested(s.rows, s.creators[t].c);
    }
  }

  lemma PauseStep(s: State, a: Action, email: string)
    requires Inv(s) && PauseInv(s, email) && Enabled(s, a) && Fits(s, a, ByEmail(email), 1)
    ensures PauseInv(Step(s, a), email)
  {
    match a {
      case Create(c) => PausedCreate(s, c, email);
      case CountEmail(thread, c) => PausedCount(s, thread, c, email);
      case Proceed(thread) => PausedProceed(s, thread, email);
      case _ => PausedRewritten(s, a, email);
    }
  }

  /** When the creations of an email do not overlap, its challenges for one purpose are a
      minute apart. */
  lemma ResendPause(s: State, email: string, i: nat, j: nat)
    requires Reaches(NextCreating(ByEmail(email), 1), INITIAL, s)
    requires i < j < |s.rows| && s.rows[i].email == email && SameKey(s.rows[i], s.rows[j])
    ensures s.rows[i].createdAt + RESEND_SECONDS <= s.rows[j].createdAt
  {
    var inv := (s: State) => Inv(s) && PauseInv(s, email);
    forall s, a, t | inv(s) && NextCreating(ByEmail(email), 1)(s, a, t)
      ensures inv(t)
    {
      StepKeeps(s, a);
      PauseStep(s, a, email);
    }
    assert Creating(map[], ByEmail(email)) == {};
    Kept(NextCreating(ByEmail(email), 1), inv, INITIAL, s);
  }

  // ---- the bound is exact

  /** Distinct ids and emails. */
  ghost function Name(n: nat): string {
    seq(n, _ => 'x')
  }

  lemma NamesDiffer(m: nat, n: nat)
    requires m != n
    ensures Name(m) != Name(n)
  {
    assert |Name(m)| == m && |Name(n)| == n;
  }

  /** When creation number n starts: a minute apart until the limit is almost reached, and
      then all at once. */
  ghost function StartOf(key: Key, n: nat): int {
    1 + 60 * (if n < Limit(key) - 1 then n else Limit(key) - 1)
  }

  ghost function Nth(key: Key, n: nat): Creation {
    Creation(Name(n), 0, if key.ByEmail? then key.email else Name(n), "registration", "",
             if key.ByEmail? then "" else key.ip, StartOf(key, n))
  }

  ghost function Series(key: Key, n: nat): (rows: seq<Row>)
    ensures |rows| == n && forall i: nat | i < n :: rows[i] == NewRow(Nth(key, i))
  {
    if n == 0 then [] else Series(key, n - 1) + [NewRow(Nth(key, n - 1))]
  }

  ghost function Waiting(key: Key, lo: nat, hi: nat): Creators {
    map t: nat | lo <= t < hi :: Creator(Nth(key, t), 3)
  }

  /** The first n creations are done; those up to hi are under way, with all SELECTs behind
      them. */
  ghost function Crowd(key: Key, n: nat, hi: nat): State
    requires n <= hi
  {
    State(Series(key, n), if hi == 0 then 1 else StartOf(key, hi - 1), map[], Waiting(key, n, hi), [], [], [])
  }

  lemma {:induction false} CountAtMost(rows: seq<Row>, p: Row -> bool)
    ensures Count(rows, p) <= |rows|
    ensures (forall i | 0 <= i < |rows| :: p(rows[i])) ==> Count(rows, p) == |rows|
  {
    if rows != [] {
      CountAtMost(rows[..|rows| - 1], p);
    }
  }

  lemma FreshId(key: Key, n: nat, m: nat)
    requires n <= m
    ensures Find(Series(key, n), Name(m)).None?
  {
    forall i: nat | i < n
      ensures Series(key, n)[i].id != Name(m)
    {
      NamesDiffer(i, m);
    }
  }

  /** While the limit is not reached, every SELECT of a later creation finds room. */
  lemma FindsRoom(key: Key, n: nat, m: nat)
    requires n <= Limit(key) - 1 && n <= m
    ensures !EmailFull(Series(key, n), Nth(key, m)) && !AddressFull(Series(key, n), Nth(key, m)) && !TooSoon(Series(key, n), Nth(key, m))
  {
    var rows, c := Series(key, n), Nth(key, m);
    if key.ByAddress? {
      OtherEmails(key, n, m);
      assert Count(rows, CreatedSince(c.email, c.now - HOUR)) == 0;
    } else {
      assert c.ip == "";
    }
    RoomFor(rows, key, c);
    StartsApart(key, n, m);
  }

  lemma RoomFor(rows: seq<Row>, key: Key, c: Creation)
    requires |rows| <= Limit(key) - 1
    requires if key.ByEmail? then c.ip == "" else Count(rows, CreatedSince(c.email, c.now - HOUR)) == 0
    ensures !EmailFull(rows, c) && !AddressFull(rows, c)
  {
    if key.ByEmail? {
      CountAtMost(rows, CreatedSince(c.email, c.now - HOUR));
    } else {
      CountAtMost(rows, CreatedFrom(c.ip, c.now - HOUR));
    }
  }

  lemma OtherEmails(key: Key, n: nat, m: nat)
    requires key.ByAddress? && n <= m
    ensures Count(Series(key, n), CreatedSince(Name(m), Nth(key, m).now - HOUR)) == 0
  {
    var p := CreatedSince(Name(m), Nth(key, m).now - HOUR);
    forall i: nat | i < n
      ensures !p(Series(key, n)[i])
    {
      NamesDiffer(i, m);
    }
    CountNone(Series(key, n), p);
  }

  lemma StartsApart(key: Key, n: nat, m: nat)
    requires n <= Limit(key) - 1 && n <= m
    ensures !TooSoon(Series(key, n), Nth(key, m))
  {
    var rows, c := Series(key, n), Nth(key, m);
    var latest := Latest(rows, c.email, c.purpose);
    if latest.Some? {
      var i: nat :| i < n && rows[i] == latest.value;
      assert rows[i] == NewRow(Nth(key, i)) && StartOf(key, i) + 60 <= StartOf(key, m);
    }
  }

  lemma CrowdSize(key: Key, n: nat, hi: nat)
    requires n <= hi
    ensures |Creating(Waiting(key, n, hi), key)| <= hi - n
  {
    WhereBelow(Waiting(key, n, hi), ForKey(key), n, hi);
  }

  /** Only creations, at most w of the key at a time. */
  function NextAdding(key: Key, w: nat): (State, Action, State) -> bool {
    (s, a, t) => IsCreation(a) && Enabled(s, a) && t == Step(s, a) && Fits(s, a, key, w)
  }

  /** Something that every step of creations keeps. */
  ghost predicate Adding(p: State -> bool, key: Key, w: nat) {
    Preserves(NextAdding(key, w), p)
  }

  lemma ByStep(p: State -> bool, key: Key, w: nat, s: State, a: Action, t: State)
    requires Adding(p, key, w)
    requires p(s) && IsCreation(a) && Enabled(s, a) && Fits(s, a, key, w) && t == Step(s, a)
    ensures p(t)
  {
    assert NextAdding(key, w)(s, a, t);
  }

  lemma ByCreate(p: State -> bool, key: Key, w: nat, s: State, c: Creation)
    requires Adding(p, key, w)
    requires p(s) && Timely(s, c.now) && Refusal(s.rows, c).None? && |Creating(s.creators, key)| < w
    ensures p(s.(rows := s.rows + [NewRow(c)], clock := c.now))
  {
    ByStep(p, key, w, s, Create(c), s.(rows := s.rows + [NewRow(c)], clock := c.now));
  }

  lemma ByCount(p: State -> bool, key: Key, w: nat, s: State, thread: nat, c: Creation)
    requires Adding(p, key, w)
    requires p(s) && Timely(s, c.now) && thread !in s.creators && |Creating(s.creators, key)| < w
    requires c.purpose in PURPOSES && !EmailFull(s.rows, c)
    ensures p(s.(creators := s.creators[thread := Creator(c, 1)], clock := c.now))
  {
    ByStep(p, key, w, s, CountEmail(thread, c), s.(creators := s.creators[thread := Creator(c, 1)], clock := c.now));
  }

  lemma ByPass(p: State -> bool, key: Key, w: nat, s: State, thread: nat)
    requires Adding(p, key, w)
    requires p(s) && thread in s.creators && s.creators[thread].selects < 3 && Passes(s.rows, s.creators[thread])
    ensures p(s.(creators := s.creators[thread := Creator(s.creators[thread].c, s.creators[thread].selects + 1)]))
  {
    ByStep(p, key, w, s, Proceed(thread),
           s.(creators := s.creators[thread := Creator(s.creators[thread].c, s.creators[thread].selects + 1)]));
  }

  lemma ByInsert(p: State -> bool, key: Key, w: nat, s: State, thread: nat)
    requires Adding(p, key, w)
    requires p(s) && thread in s.creators && s.creators[thread].selects >= 3
    requires Find(s.rows, s.creators[thread].c.id).None?
    ensures p(s.(rows := s.rows + [NewRow(s.creators[thread].c)], creators := s.creators - {thread}))
  {
    ByStep(p, key, w, s, Proceed(thread),
           s.(rows := s.rows + [NewRow(s.creators[thread].c)], creators := s.creators - {thread}));
  }

  lemma NotRefused(key: Key, n: nat)
    requires n < Limit(key) - 1
    ensures Refusal(Series(key, n), Nth(key, n)).None?
  {
    FindsRoom(key, n, n);
    FreshId(key, n, n);
    assert "registration" in PURPOSES;
  }

  lemma {:induction false} OneByOne(p: State -> bool, key: Key, w: nat, n: nat)
    requires Adding(p, key, w) && p(INITIAL)
    requires w >= 1 && n <= Limit(key) - 1
    ensures p(Crowd(key, n, n))
  {
    if n == 0 {
      assert Waiting(key, 0, 0) == map[];
    } else {
      OneByOne(p, key, w, n - 1);
      NotRefused(key, n - 1);
      CrowdSize(key, n - 1, n - 1);
      NextInSeries(key, n - 1);
      ByCreate(p, key, w, Crowd(key, n - 1, n - 1), Nth(key, n - 1));
    }
  }

  lemma NextInSeries(key: Key, n: nat)
    ensures Crowd(key, n + 1, n + 1) == Crowd(key, n, n).(rows := Series(key, n) + [NewRow(Nth(key, n))], clock := Nth(key, n).now)
  {
    assert Waiting(key, n + 1, n + 1) == Waiting(key, n, n);
  }

  lemma WaitingLess(key: Key, n: nat, hi: nat)
    requires n < hi
    ensures n in Waiting(key, n, hi) && Waiting(key, n, hi)[n] == Creator(Nth(key, n), 3)
    ensures Waiting(key, n + 1, hi) == Waiting(key, n, hi) - {n}
  {
  }

  lemma WaitingMore(key: Key, n: nat, hi: nat)
    requires n <= hi
    ensures hi !in Waiting(key, n, hi)
    ensures Waiting(key, n, hi + 1) == Waiting(key, n, hi)[hi := Creator(Nth(key, hi), 3)]
  {
  }

  /** All three SELECTs of a creation, one after the other. */
  lemma ByThree(p: State -> bool, key: Key, w: nat, s: State, thread: nat, c: Creation)
    requires Adding(p, key, w)
    requires p(s) && Timely(s, c.now) && thread !in s.creators && |Creating(s.creators, key)| < w
    requires c.purpose in PURPOSES && !EmailFull(s.rows, c) && !AddressFull(s.rows, c) && !TooSoon(s.rows, c)
    ensures p(s.(creators := s.creators[thread := Creator(c, 3)], clock := c.now))
  {
    ByCount(p, key, w, s, thread, c);
    var s1 := s.(creators := s.creators[thread := Creator(c, 1)], clock := c.now);
    ByPass(p, key, w, s1, thread);
    assert s1.creators[thread := Creator(c, 2)] == s.creators[thread := Creator(c, 2)];
    var s2 := s.(creators := s.creators[thread := Creator(c, 2)], clock := c.now);
    ByPass(p, key, w, s2, thread);
    assert s2.creators[thread := Creator(c, 3)] == s.creators[thread := Creator(c, 3)];
  }

  lemma OneMoreWaits(p: State -> bool, key: Key, w: nat, n: nat, hi: nat)
    requires Adding(p, key, w)
    requires n == Limit(key) - 1 && n <= hi < n + w && p(Crowd(key, n, hi))
    ensures p(Crowd(key, n, hi + 1))
  {
    var s, c := Crowd(key, n, hi), Nth(key, hi);
    FindsRoom(key, n, hi);
    CrowdSize(key, n, hi);
    WaitingMore(key, n, hi);
    assert "registration" in PURPOSES;
    ByThree(p, key, w, s, hi, c);
    assert s.(creators := s.creators[hi := Creator(c, 3)], clock := c.now) == Crowd(key, n, hi + 1);
  }

  lemma {:induction false} AllWait(p: State -> bool, key: Key, w: nat, hi: nat)
    requires Adding(p, key, w) && p(INITIAL)
    requires w >= 1 && Limit(key) - 1 <= hi <= Limit(key) - 1 + w
    ensures p(Crowd(key, Limit(key) - 1, hi))
    decreases hi
  {
    if hi == Limit(key) - 1 {
      OneByOne(p, key, w, hi);
    } else {
      AllWait(p, key, w, hi - 1);
      OneMoreWaits(p, key, w, Limit(key) - 1, hi - 1);
    }
  }

  lemma OneMoreInserts(p: State -> bool, key: Key, w: nat, n: nat, hi: nat)
    requires Adding(p, key, w)
    requires n < hi && p(Crowd(key, n, hi))
    ensures p(Crowd(key, n + 1, hi))
  {
    var s := Crowd(key, n, hi);
    FreshId(key, n, n);
    WaitingLess(key, n, hi);
    ByInsert(p, key, w, s, n);
    assert s.(rows := s.rows + [NewRow(Nth(key, n))], creators := s.creators - {n}) == Crowd(key, n + 1, hi);
  }

  lemma {:induction false} AllInsert(p: State -> bool, key: Key, w: nat, n: nat)
    requires Adding(p, key, w) && p(INITIAL)
    requires w >= 1 && Limit(key) - 1 <= n <= Limit(key) - 1 + w
    ensures p(Crowd(key, n, Limit(key) - 1 + w))
    decreases n
  {
    var hi := Limit(key) - 1 + w;
    if n == Limit(key) - 1 {
      AllWait(p, key, w, hi);
    } else {
      AllInsert(p, key, w, n - 1);
      OneMoreInserts(p, key, w, n - 1, hi);
    }
  }

  /** With w creations at a time, the bound is met in some run. */
  lemma CreatedBoundMet(key: Key, w: nat) returns (s: State)
    requires IsKey(key) && w >= 1
    ensures Reaches(NextCreating(key, w), INITIAL, s)
    ensures Count(s.rows, CreatedWithin(key, 0, HOUR)) == Limit(key) - 1 + w
  {
    var n, next := Limit(key) - 1 + w, NextCreating(key, w);
    s := Crowd(key, n, n);
    ReachedKept(next, INITIAL);
    assert forall s, a, t :: NextAdding(key, w)(s, a, t) ==> next(s, a, t);
    AllInsert(ReachedFrom(next, INITIAL), key, w, n);
    CrowdInHour(key, n, s.rows);
  }

  lemma CrowdInHour(key: Key, n: nat, rows: seq<Row>)
    requires rows == Crowd(key, n, n).rows
    ensures Count(rows, CreatedWithin(key, 0, HOUR)) == n
  {
    SeriesInHour(key, n);
  }

  lemma SeriesInHour(key: Key, n: nat)
    ensures Count(Series(key, n), CreatedWithin(key, 0, HOUR)) == n
  {
    forall i: nat | i < n
      ensures CreatedWithin(key, 0, HOUR)(Series(key, n)[i])
    {
      assert Series(key, n)[i] == NewRow(Nth(key, i));
    }
    CountAtMost(Series(key, n), CreatedWithin(key, 0, HOUR));
  }

  function InHour(rows: seq<Row>, key: Key, after: int): nat {
    Count(rows, CreatedWithin(key, after, after + HOUR))
  }

  ghost predicate LimitKept(rows: seq<Row>, key: Key) {
    forall after: int :: InHour(rows, key, after) <= Limit(key)
  }

  /** So the hourly limit holds in all runs with at most w creations at a time if and only if
      that is one. */
  lemma LimitHoldsIff(key: Key, w: nat)
    requires IsKey(key)
    ensures (forall s | Reaches(NextCreating(key, w), INITIAL, s) :: LimitKept(s.rows, key)) <==> w <= 1
  {
    if w <= 1 {
      forall s | Reaches(NextCreating(key, w), INITIAL, s)
        ensures LimitKept(s.rows, key)
      {
        forall after: int
          ensures InHour(s.rows, key, after) <= Limit(key)
        {
          CreatedBound(s, key, w, after);
        }
      }
    } else {
      var s := CreatedBoundMet(key, w);
      assert InHour(s.rows, key, 0) > Limit(key);
    }
  }

  // ---- without the pause

  ghost function Twin(email: string, n: nat): Creation {
    Creation(Name(n), 0, email, "registration", "", "", 1)
  }

  ghost function TwinsWait(email: string): State {
    INITIAL.(creators := map[0 := Creator(Twin(email, 0), 3), 1 := Creator(Twin(email, 1), 3)])
  }

  lemma NothingBefore(c: Creation)
    requires c.ip == ""
    ensures !EmailFull([], c) && !AddressFull([], c) && !TooSoon([], c)
  {
    assert Count([], CreatedSince(c.email, c.now - HOUR)) == 0;
  }

  lemma TwinsRead(p: State -> bool, email: string, w: nat)
    requires Adding(p, ByEmail(email), w) && p(INITIAL) && w >= 2
    ensures p(TwinsWait(email))
  {
    var key, one := ByEmail(email), INITIAL.(creators := map[0 := Creator(Twin(email, 0), 3)]);
    assert "registration" in PURPOSES;
    NothingBefore(Twin(email, 0));
    NothingBefore(Twin(email, 1));
    assert Creating(map[], key) == {};
    ByThree(p, key, w, INITIAL, 0, Twin(email, 0));
    assert map[][0 := Creator(Twin(email, 0), 3)] == one.creators;
    WhereBelow(one.creators, ForKey(key), 0, 1);
    ByThree(p, key, w, one, 1, Twin(email, 1));
    assert one.creators[1 := Creator(Twin(email, 1), 3)] == TwinsWait(email).creators;
  }

  /** Two creations that have both read before either inserts. */
  lemma Twins(p: State -> bool, email: string, w: nat)
    requires Adding(p, ByEmail(email), w) && p(INITIAL) && w >= 2
    ensures p(INITIAL.(rows := [NewRow(Twin(email, 0)), NewRow(Twin(email, 1))]))
  {
    var key, s := ByEmail(email), TwinsWait(email);
    TwinsRead(p, email, w);
    ByInsert(p, key, w, s, 0);
    var left: Creators := map[1 := Creator(Twin(email, 1), 3)];
    assert s.creators - {0} == left;
    var s1 := INITIAL.(rows := [NewRow(Twin(email, 0))], creators := left);
    assert s.rows + [NewRow(Twin(email, 0))] == s1.rows;
    NamesDiffer(0, 1);
    ByInsert(p, key, w, s1, 1);
    assert left - {1} == map[];
    assert s1.rows + [NewRow(Twin(email, 1))] == [NewRow(Twin(email, 0)), NewRow(Twin(email, 1))];
  }

  /** The pause holds in all runs with at most w creations of the email at a time if and only
      if that is one. */
  lemma PauseHoldsIff(email: string, w: nat)
    ensures (forall s | Reaches(NextCreating(ByEmail(email), w), INITIAL, s) :: Paused(s.rows, email)) <==> w <= 1
  {
    var next := NextCreating(ByEmail(email), w);
    if w <= 1 {
      forall s | Reaches(next, INITIAL, s)
        ensures Paused(s.rows, email)
      {
        Allowed(next, NextCreating(ByEmail(email), 1), INITIAL, s);
        forall i, j | 0 <= i < j < |s.rows| && s.rows[i].email == email && SameKey(s.rows[i], s.rows[j])
          ensures s.rows[i].createdAt + RESEND_SECONDS <= s.rows[j].createdAt
        {
          ResendPause(s, email, i, j);
        }
      }
    } else {
      var s := INITIAL.(rows := [NewRow(Twin(email, 0)), NewRow(Twin(email, 1))]);
      ReachedKept(next, INITIAL);
      assert forall s, a, t :: NextAdding(ByEmail(email), w)(s, a, t) ==> next(s, a, t);
      Twins(ReachedFrom(next, INITIAL), email, w);
      assert Reaches(next, INITIAL, s);
      assert SameKey(s.rows[0], s.rows[1]);
    }
  }
}
