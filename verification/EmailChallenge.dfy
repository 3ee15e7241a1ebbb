/** The table of e-mail verification challenges and the four operations on it. Rows are
    kept in insertion order; a SELECT or UPDATE statement is one step. E-mail addresses
    are normalized before they get here, and the code is compared by its digest. */
module EmailChallenge {
  import opened Basics

  const TTL_SECONDS := 600
  const RESEND_SECONDS := 60
  const MAX_ATTEMPTS := 5
  const EMAIL_HOURLY_LIMIT := 5
  const IP_HOURLY_LIMIT := 20
  const HOUR := 3600
  const PURPOSES: set<string> := {"registration", "password_setup", "email_binding", "login_security"}

  datatype Status = Pending | Sent | Failed

  datatype Row = Row(
    id: string, userId: int, email: string, purpose: string, digest: string, status: Status,
    sentAt: int, resendAt: int, expiresAt: int, attempts: int, maxAttempts: int,
    consumedAt: int, invalidatedAt: int, ip: string, createdAt: int, updatedAt: int)

  datatype Error =
    | InvalidPurpose | EmailRateLimited | IpRateLimited | ResendTooSoon | DuplicateId
    | NotFound | Mismatch | NotSent | Consumed | Invalidated | Expired | AttemptsExceeded | CodeInvalid

  // ---- statements

  function Count(rows: seq<Row>, p: Row -> bool): nat {
    if rows == [] then 0
    else Count(rows[..|rows| - 1], p) + (if p(rows[|rows| - 1]) then 1 else 0)
  }

  function Update(rows: seq<Row>, p: Row -> bool, f: Row -> Row): (r: seq<Row>)
    ensures |r| == |rows|
    ensures forall i | 0 <= i < |rows| :: r[i] == if p(rows[i]) then f(rows[i]) else rows[i]
  {
    seq(|rows|, i requires 0 <= i < |rows| => if p(rows[i]) then f(rows[i]) else rows[i])
  }

  /** SELECT ... WHERE id = ? */
  function Find(rows: seq<Row>, id: string): (r: Option<Row>)
    ensures r.Some? ==> r.value.id == id && r.value in rows
    ensures r.None? ==> forall i | 0 <= i < |rows| :: rows[i].id != id
  {
    if rows == [] then None
    else if rows[|rows| - 1].id == id then Some(rows[|rows| - 1])
    else Find(rows[..|rows| - 1], id)
  }

  function CreatedSince(email: string, since: int): Row -> bool {
    (r: Row) => r.email == email && r.createdAt > since
  }

  function CreatedFrom(ip: string, since: int): Row -> bool {
    (r: Row) => r.ip == ip && r.createdAt > since
  }

  function Latest(rows: seq<Row>, email: string, purpose: string): (r: Option<Row>)
    ensures r.Some? ==> r.value in rows && r.value.email == email && r.value.purpose == purpose
    ensures r.Some? ==> forall i | 0 <= i < |rows| && rows[i].email == email && rows[i].purpose == purpose ::
              rows[i].createdAt <= r.value.createdAt
    ensures r.None? ==> forall i | 0 <= i < |rows| :: rows[i].email != email || rows[i].purpose != purpose
  {
    if rows == [] then None
    else
      var last := rows[|rows| - 1];
      var before := Latest(rows[..|rows| - 1], email, purpose);
      if last.email == email && last.purpose == purpose && (before.None? || last.createdAt >= before.value.createdAt)
      then Some(last)
      else before
  }

  // ---- creating

  datatype Creation = Creation(id: string, userId: int, email: string, purpose: string, digest: string, ip: string, now: int)

  function NewRow(c: Creation): Row {
    Row(c.id, c.userId, c.email, c.purpose, c.digest, Pending, 0, c.now + RESEND_SECONDS, c.now + TTL_SECONDS,
        0, MAX_ATTEMPTS, 0, 0, c.ip, c.now, c.now)
  }

  // The three SELECTs of a creation.

  predicate EmailFull(rows: seq<Row>, c: Creation) {
    Count(rows, CreatedSince(c.email, c.now - HOUR)) >= EMAIL_HOURLY_LIMIT
  }

  predicate AddressFull(rows: seq<Row>, c: Creation) {
    c.ip != "" && Count(rows, CreatedFrom(c.ip, c.now - HOUR)) >= IP_HOURLY_LIMIT
  }

  /** The most recently created challenge of the key cannot be resent yet. */
  predicate TooSoon(rows: seq<Row>, c: Creation) {
    var latest := Latest(rows, c.email, c.purpose);
    latest.Some? && latest.value.resendAt > c.now
  }

  /** Why a creation in one transaction is refused; None when the row is inserted. */
  function Refusal(rows: seq<Row>, c: Creation): Option<Error> {
    if c.purpose !in PURPOSES then Some(InvalidPurpose)
    else if EmailFull(rows, c) then Some(EmailRateLimited)
    else if AddressFull(rows, c) then Some(IpRateLimited)
    else if TooSoon(rows, c) then Some(ResendTooSoon)
    else if Find(rows, c.id).Some? then Some(DuplicateId)
    else None
  }

  /** The places of the rows that a condition holds of. */
  ghost function Places(rows: seq<Row>, p: Row -> bool): (places: set<nat>)
    ensures forall i :: i in places <==> 0 <= i < |rows| && p(rows[i])
  {
    set i: nat | i < |rows| && p(rows[i])
  }

  lemma {:induction false} CountIsSize(rows: seq<Row>, p: Row -> bool)
    ensures Count(rows, p) == |Places(rows, p)|
  {
    if rows != [] {
      var n := |rows| - 1;
      CountIsSize(rows[..n], p);
      assert Places(rows, p) == Places(rows[..n], p) + if p(rows[n]) then {n} else {};
    } else {
      assert Places(rows, p) == {};
    }
  }

  /** Five challenges of an hour to the email, or twenty from the address, are refused. */
  lemma FullIff(rows: seq<Row>, c: Creation)
    ensures EmailFull(rows, c) <==> |set i: nat | i < |rows| && rows[i].email == c.email && c.now - 3600 < rows[i].createdAt| >= 5
    ensures AddressFull(rows, c) <==>
            c.ip != "" && |set i: nat | i < |rows| && rows[i].ip == c.ip && c.now - 3600 < rows[i].createdAt| >= 20
  {
    CountIsSize(rows, CreatedSince(c.email, c.now - HOUR));
    CountIsSize(rows, CreatedFrom(c.ip, c.now - HOUR));
    assert Places(rows, CreatedSince(c.email, c.now - HOUR))
        == set i: nat | i < |rows| && rows[i].email == c.email && c.now - 3600 < rows[i].createdAt;
    assert Places(rows, CreatedFrom(c.ip, c.now - HOUR))
        == set i: nat | i < |rows| && rows[i].ip == c.ip && c.now - 3600 < rows[i].createdAt;
  }

  function Created(rows: seq<Row>, c: Creation): seq<Row> {
    if Refusal(rows, c).None? then rows + [NewRow(c)] else rows
  }

  // ---- delivery

  function Sendable(id: string): Row -> bool {
    (r: Row) => r.id == id && r.status == Pending && r.invalidatedAt == 0 && r.consumedAt == 0
  }

  function OthersOpen(row: Row): Row -> bool {
    (r: Row) => r.email == row.email && r.purpose == row.purpose && r.id != row.id && r.consumedAt == 0 && r.invalidatedAt == 0
  }

  function Invalidate(now: int): Row -> Row {
    (r: Row) => r.(invalidatedAt := now, updatedAt := now)
  }

  function Deliver(now: int): Row -> Row {
    (r: Row) => r.(status := Sent, sentAt := now, updatedAt := now)
  }

  predicate SentHit(rows: seq<Row>, id: string) {
    Find(rows, id).Some? && Count(rows, Sendable(id)) == 1
  }

  function MarkedSent(rows: seq<Row>, id: string, now: int): seq<Row> {
    var found := Find(rows, id);
    if found.None? then rows
    else
      var sent := Update(rows, Sendable(id), Deliver(now));
      if SentHit(rows, id) then Update(sent, OthersOpen(found.value), Invalidate(now)) else sent
  }

  function Failable(id: string): Row -> bool {
    (r: Row) => r.id == id && r.status == Pending && r.consumedAt == 0
  }

  /** A challenge that waits for its delivery. */
  ghost predicate PendingIs(r: Row, id: string) {
    r.id == id && r.status.Pending? && r.consumedAt == 0
  }

  function MarkedFailed(rows: seq<Row>, id: string, now: int): seq<Row> {
    Update(rows, Failable(id), (r: Row) => r.(status := Failed, invalidatedAt := now, updatedAt := now))
  }

  // ---- verifying

  datatype Request = Request(id: string, email: string, purpose: string, digest: string,
                             expectedUser: Option<int>, ip: string, now: int)

  /** What a verifier decides after reading its row. */
  datatype Decision = Reject(error: Error) | Expire | Miss(lockAt: int) | Consume

  function Decide(row: Option<Row>, q: Request): Decision {
    if q.purpose !in PURPOSES then Reject(InvalidPurpose)
    else if row.None? then Reject(NotFound)
    else
      var r := row.value;
      if r.email != q.email || r.purpose != q.purpose then Reject(Mismatch)
      else if q.expectedUser.Some? && r.userId != q.expectedUser.value then Reject(Mismatch)
      else if q.ip != "" && r.ip != q.ip then Reject(Mismatch)
      else if r.status != Sent then Reject(NotSent)
      else if r.consumedAt > 0 then Reject(Consumed)
      else if r.invalidatedAt > 0 then Reject(Invalidated)
      else if r.expiresAt <= q.now then Expire
      else if r.attempts >= r.maxAttempts then Reject(AttemptsExceeded)
      else if r.digest != q.digest then Miss(if r.attempts + 1 >= r.maxAttempts then q.now else 0)
      else Consume
  }

  function NotInvalidated(id: string): Row -> bool {
    (r: Row) => r.id == id && r.invalidatedAt == 0
  }

  function Open(id: string): Row -> bool {
    (r: Row) => r.id == id && r.consumedAt == 0 && r.invalidatedAt == 0
  }

  function Consumable(id: string, now: int): Row -> bool {
    (r: Row) => && r.id == id && r.status == Sent && r.consumedAt == 0 && r.invalidatedAt == 0
                && r.expiresAt > now && r.attempts < r.maxAttempts
  }

  function CountFailure(lockAt: int, now: int): Row -> Row {
    (r: Row) => r.(attempts := r.attempts + 1, invalidatedAt := if lockAt > 0 then lockAt else r.invalidatedAt, updatedAt := now)
  }

  function MarkConsumed(now: int): Row -> Row {
    (r: Row) => r.(consumedAt := now, updatedAt := now)
  }

  /** The UPDATE that carries out a decision, on the table as it is by then. */
  function Carried(rows: seq<Row>, id: string, d: Decision, now: int): seq<Row> {
    match d
    case Reject(_) => rows
    case Expire => Update(rows, NotInvalidated(id), Invalidate(now))
    case Miss(lockAt) => Update(rows, Open(id), CountFailure(lockAt, now))
    case Consume => Update(rows, Consumable(id, now), MarkConsumed(now))
  }

  /** The answer of the call: no error means that the code was accepted. */
  function Answer(rows: seq<Row>, id: string, d: Decision, now: int): Option<Error> {
    match d
    case Reject(error) => Some(error)
    case Expire => Some(Expired)
    case Miss(lockAt) => Some(if lockAt > 0 then AttemptsExceeded else CodeInvalid)
    case Consume => if Count(rows, Consumable(id, now)) == 1 then None else Some(Consumed)
  }

  // ---- what the statements mean in a table whose ids are unique

  ghost predicate UniqueIds(rows: seq<Row>) {
    forall i, j | 0 <= i < j < |rows| :: rows[i].id != rows[j].id
  }

  /** Sent, and neither used nor closed. */
  predicate Live(r: Row) {
    r.status == Sent && r.consumedAt == 0 && r.invalidatedAt == 0
  }

  predicate IsOpen(r: Row) {
    r.consumedAt == 0 && r.invalidatedAt == 0
  }

  predicate SameKey(a: Row, b: Row) {
    a.email == b.email && a.purpose == b.purpose
  }

  lemma {:induction false} CountWitness(rows: seq<Row>, p: Row -> bool) returns (i: nat)
    requires Count(rows, p) > 0
    ensures i < |rows| && p(rows[i])
  {
    if p(rows[|rows| - 1]) {
      i := |rows| - 1;
    } else {
      i := CountWitness(rows[..|rows| - 1], p);
    }
  }

  lemma {:induction false} CountNone(rows: seq<Row>, p: Row -> bool)
    requires forall i | 0 <= i < |rows| :: !p(rows[i])
    ensures Count(rows, p) == 0
  {
    if rows != [] {
      CountNone(rows[..|rows| - 1], p);
    }
  }

  /** With unique ids, a statement that names an id hits at most one row. */
  lemma {:induction false} CountOne(rows: seq<Row>, p: Row -> bool, i: nat)
    requires UniqueIds(rows) && i < |rows| && p(rows[i])
    requires forall j | 0 <= j < |rows| && p(rows[j]) :: rows[j].id == rows[i].id
    ensures Count(rows, p) == 1
  {
    var n := |rows| - 1;
    if i == n {
      CountNone(rows[..n], p);
    } else {
      assert !p(rows[n]);
      CountOne(rows[..n], p, i);
    }
  }

  lemma FindIs(rows: seq<Row>, i: nat)
    requires UniqueIds(rows) && i < |rows|
    ensures Find(rows, rows[i].id) == Some(rows[i])
  {
    var found := Find(rows, rows[i].id).value;
    var k :| 0 <= k < |rows| && rows[k] == found;
    assert k == i;
  }

  /** An UPDATE that names an id changes one row or none. */
  lemma UpdateOne(rows: seq<Row>, p: Row -> bool, f: Row -> Row, id: string) returns (i: nat)
    requires UniqueIds(rows) && forall r | p(r) :: r.id == id
    ensures Count(rows, p) == 0 ==> Update(rows, p, f) == rows && forall j | 0 <= j < |rows| :: !p(rows[j])
    ensures Count(rows, p) > 0 ==>
              && i < |rows| && p(rows[i]) && Count(rows, p) == 1
              && Update(rows, p, f) == rows[i := f(rows[i])]
  {
    i := 0;
    if k :| 0 <= k < |rows| && p(rows[k]) {
      i := k;
      CountOne(rows, p, i);
    } else {
      CountNone(rows, p);
    }
  }

  /** The row is the only one of its key that is still open. */
  ghost predicate OnlyOpen(rows: seq<Row>, i: nat)
    requires i < |rows|
  {
    Live(rows[i]) && forall j | 0 <= j < |rows| && j != i && SameKey(rows[j], rows[i]) :: !IsOpen(rows[j])
  }

  /** The pending, open row of an id, which a delivery hits. */
  ghost predicate Waits(r: Row, id: string) {
    r.id == id && r.status == Pending && IsOpen(r)
  }

  ghost predicate OfKey(rows: seq<Row>, id: string, r: Row) {
    exists j :: 0 <= j < |rows| && rows[j].id == id && SameKey(r, rows[j])
  }

  /** A delivery hits the waiting row of an id if there is one: it closes the other open rows
      of that key and changes nothing else. */
  ghost predicate SentEffect(rows: seq<Row>, rows': seq<Row>, id: string, now: int, hit: bool) {
    && |rows'| == |rows|
    && (hit <==> exists i :: 0 <= i < |rows| && Waits(rows[i], id))
    && forall i | 0 <= i < |rows| ::
         rows'[i] ==
         if hit && rows[i].id == id then rows[i].(status := Sent, sentAt := now, updatedAt := now)
         else if hit && IsOpen(rows[i]) && OfKey(rows, id, rows[i]) then rows[i].(invalidatedAt := now, updatedAt := now)
         else rows[i]
  }

  lemma SentMeans(rows: seq<Row>, id: string, now: int)
    requires UniqueIds(rows)
    ensures SentEffect(rows, MarkedSent(rows, id, now), id, now, SentHit(rows, id))
  {
    var i := UpdateOne(rows, Sendable(id), Deliver(now), id);
    if Count(rows, Sendable(id)) > 0 {
      FindIs(rows, i);
      assert Waits(rows[i], id);
      forall k | 0 <= k < |rows|
        ensures OfKey(rows, id, rows[k]) <==> SameKey(rows[k], rows[i])
      {
      }
    } else {
      forall k | 0 <= k < |rows|
        ensures !Waits(rows[k], id)
      {
        assert !Sendable(id)(rows[k]);
      }
    }
  }

  /** A delivered challenge is the only open one of its key. */
  lemma SentIsOnlyOpen(rows: seq<Row>, rows': seq<Row>, id: string, now: int)
    requires UniqueIds(rows) && SentEffect(rows, rows', id, now, true) && now > 0
    ensures exists i :: 0 <= i < |rows| && rows[i].id == id && OnlyOpen(rows', i)
  {
    var i :| 0 <= i < |rows| && Waits(rows[i], id);
    forall j | 0 <= j < |rows| && j != i && SameKey(rows'[j], rows'[i])
      ensures !IsOpen(rows'[j])
    {
      assert rows[j].id != id && SameKey(rows[j], rows[i]);
      assert OfKey(rows, id, rows[j]);
    }
    assert OnlyOpen(rows', i);
  }

  /** What a request must find to be accepted. */
  predicate Acceptable(r: Row, q: Request) {
    && r.id == q.id && r.email == q.email && r.purpose == q.purpose && r.digest == q.digest
    && (q.expectedUser.Some? ==> r.userId == q.expectedUser.value) && (q.ip != "" ==> r.ip == q.ip)
    && Live(r) && q.now < r.expiresAt && r.attempts < r.maxAttempts
  }

  function Outcome(rows: seq<Row>, q: Request): Option<Error> {
    Answer(rows, q.id, Decide(Find(rows, q.id), q), q.now)
  }

  function Verified(rows: seq<Row>, q: Request): seq<Row> {
    Carried(rows, q.id, Decide(Find(rows, q.id), q), q.now)
  }

  lemma VerifiedUnchanged(rows: seq<Row>, q: Request)
    requires forall i | 0 <= i < |rows| :: rows[i].id != q.id
    ensures Verified(rows, q) == rows && Outcome(rows, q) == Some(if q.purpose in PURPOSES then NotFound else InvalidPurpose)
  {
  }

  /** A verification changes at most the row it names: it consumes the row exactly when the
      row is acceptable, counts a failure of a live row, or closes an expired one. */
  lemma VerifiedMeans(rows: seq<Row>, q: Request, i: nat)
    requires UniqueIds(rows) && i < |rows| && rows[i].id == q.id && q.now > 0
    requires forall j | 0 <= j < |rows| :: rows[j].consumedAt >= 0 && rows[j].invalidatedAt >= 0
    ensures Outcome(rows, q).None? <==> q.purpose in PURPOSES && Acceptable(rows[i], q)
    ensures Outcome(rows, q).None? ==> Verified(rows, q) == rows[i := rows[i].(consumedAt := q.now, updatedAt := q.now)]
    ensures Outcome(rows, q) == Some(CodeInvalid) ==>
              && Live(rows[i]) && rows[i].attempts + 1 < rows[i].maxAttempts && rows[i].digest != q.digest
              && Verified(rows, q) == rows[i := rows[i].(attempts := rows[i].attempts + 1, updatedAt := q.now)]
    ensures Outcome(rows, q) == Some(AttemptsExceeded) ==>
              if rows[i].attempts >= rows[i].maxAttempts then Verified(rows, q) == rows
              else Verified(rows, q)[i].attempts == rows[i].attempts + 1 == rows[i].maxAttempts && !Live(Verified(rows, q)[i])
    ensures Outcome(rows, q).Some? ==> Verified(rows, q)[i].consumedAt == rows[i].consumedAt
    ensures forall j | 0 <= j < |rows| && j != i :: Verified(rows, q)[j] == rows[j]
  {
    FindIs(rows, i);
    var r := rows[i];
    match Decide(Some(r), q) {
      case Reject(_) =>
      case Expire =>
        var k := UpdateOne(rows, NotInvalidated(q.id), Invalidate(q.now), q.id);
      case Miss(lockAt) =>
        CountOne(rows, Open(q.id), i);
        var k := UpdateOne(rows, Open(q.id), CountFailure(lockAt, q.now), q.id);
      case Consume =>
        CountOne(rows, Consumable(q.id, q.now), i);
        var k := UpdateOne(rows, Consumable(q.id, q.now), MarkConsumed(q.now), q.id);
    }
  }

  /** The request names the row's email, purpose and, where it has them, user and address. */
  predicate IsAbout(q: Request, r: Row) {
    && r.email == q.email && r.purpose == q.purpose
    && (q.expectedUser == None || q.expectedUser == Some(r.userId)) && (q.ip == "" || q.ip == r.ip)
  }

  /** Every answer has its own condition, and its own effect on the row. */
  ghost predicate Answered(r: Row, r': Row, q: Request, error: Option<Error>) {
    match error
    case None => Acceptable(r, q) && r' == r.(consumedAt := q.now, updatedAt := q.now)
    case Some(Mismatch) => !IsAbout(q, r) && r' == r
    case Some(NotSent) => IsAbout(q, r) && r.status != Sent && r' == r
    case Some(Consumed) => IsAbout(q, r) && r.status == Sent && r.consumedAt != 0 && r' == r
    case Some(Invalidated) => IsAbout(q, r) && r.status == Sent && r.consumedAt == 0 && r.invalidatedAt != 0 && r' == r
    case Some(Expired) =>
      IsAbout(q, r) && Live(r) && r.expiresAt <= q.now && r' == r.(invalidatedAt := q.now, updatedAt := q.now)
    case Some(CodeInvalid) =>
      && IsAbout(q, r) && Live(r) && q.now < r.expiresAt && r.digest != q.digest
      && r'.attempts < r.maxAttempts && r' == r.(attempts := r.attempts + 1, updatedAt := q.now)
    case Some(AttemptsExceeded) =>
      && IsAbout(q, r) && Live(r) && q.now < r.expiresAt
      && if r.maxAttempts <= r.attempts then r' == r
         else r.digest != q.digest && r.attempts + 1 == r.maxAttempts
              && r' == r.(attempts := r.maxAttempts, invalidatedAt := q.now, updatedAt := q.now)
    case _ => false
  }

  /** A request is accepted exactly when the row it names is acceptable, which consumes the
      row; every refusal has its reason and effect, and no other row changes. */
  ghost predicate VerifyEffect(rows: seq<Row>, rows': seq<Row>, q: Request, error: Option<Error>) {
    && |rows'| == |rows|
    && (error.None? <==> q.purpose in PURPOSES && exists i :: 0 <= i < |rows| && Acceptable(rows[i], q))
    && (error == Some(InvalidPurpose) <==> q.purpose !in PURPOSES)
    && (error == Some(NotFound) <==> q.purpose in PURPOSES && forall i | 0 <= i < |rows| :: rows[i].id != q.id)
    && forall i | 0 <= i < |rows| ::
         if q.purpose in PURPOSES && rows[i].id == q.id then Answered(rows[i], rows'[i], q, error) else rows'[i] == rows[i]
  }

  lemma VerifiedAnswers(rows: seq<Row>, q: Request, i: nat)
    requires UniqueIds(rows) && i < |rows| && rows[i].id == q.id && q.now > 0
    requires forall j | 0 <= j < |rows| :: rows[j].consumedAt >= 0 && rows[j].invalidatedAt >= 0
    ensures if q.purpose in PURPOSES then Answered(rows[i], Verified(rows, q)[i], q, Outcome(rows, q))
            else Outcome(rows, q) == Some(InvalidPurpose) && Verified(rows, q) == rows
  {
    FindIs(rows, i);
    match Decide(Some(rows[i]), q) {
      case Consume =>
        CountOne(rows, Consumable(q.id, q.now), i);
      case _ =>
    }
  }

  lemma VerifiedEffect(rows: seq<Row>, q: Request)
    requires UniqueIds(rows) && q.now > 0
    requires forall j | 0 <= j < |rows| :: rows[j].consumedAt >= 0 && rows[j].invalidatedAt >= 0
    ensures VerifyEffect(rows, Verified(rows, q), q, Outcome(rows, q))
  {
    if i :| 0 <= i < |rows| && rows[i].id == q.id {
      VerifiedMeans(rows, q, i);
      VerifiedAnswers(rows, q, i);
    } else {
      VerifiedUnchanged(rows, q);
    }
  }

  lemma VerifiedValid(rows: seq<Row>, q: Request)
    requires q.now > 0 && forall j | 0 <= j < |rows| :: rows[j].consumedAt >= 0 && rows[j].invalidatedAt >= 0
    ensures |Verified(rows, q)| == |rows|
    ensures forall j | 0 <= j < |rows| ::
              && Verified(rows, q)[j].id == rows[j].id
              && Verified(rows, q)[j].createdAt == rows[j].createdAt && Verified(rows, q)[j].resendAt == rows[j].resendAt
              && Verified(rows, q)[j].consumedAt >= 0 && Verified(rows, q)[j].invalidatedAt >= 0
  {
  }

  /** What a row keeps of its creation for ever. */
  ghost predicate Keeps(r: Row, c: Creation) {
    && r.id == c.id && r.userId == c.userId && r.email == c.email && r.purpose == c.purpose
    && r.digest == c.digest && r.ip == c.ip && r.maxAttempts == MAX_ATTEMPTS
    && r.createdAt == c.now && r.resendAt == c.now + RESEND_SECONDS && r.expiresAt == c.now + TTL_SECONDS
  }

  /** A pending row of this creation that nobody has touched. */
  ghost predicate IsFresh(r: Row, c: Creation) {
    Keeps(r, c) && r.status == Pending && IsOpen(r) && r.attempts == 0
  }

  /** The new row respects the limits and the resend pause. */
  ghost predicate Paced(rows: seq<Row>, r: Row) {
    && Count(rows, CreatedSince(r.email, r.createdAt - HOUR)) < EMAIL_HOURLY_LIMIT
    && (r.ip != "" ==> Count(rows, CreatedFrom(r.ip, r.createdAt - HOUR)) < IP_HOURLY_LIMIT)
    && forall j | 0 <= j < |rows| && SameKey(rows[j], r) :: rows[j].createdAt + RESEND_SECONDS <= r.createdAt
  }

  /** A challenge is refused within a minute of another one of its key. */
  lemma TooSoonIff(rows: seq<Row>, c: Creation)
    requires forall i | 0 <= i < |rows| :: rows[i].resendAt == rows[i].createdAt + RESEND_SECONDS
    ensures TooSoon(rows, c) <==>
            exists j :: 0 <= j < |rows| && rows[j].email == c.email && rows[j].purpose == c.purpose && c.now < rows[j].createdAt + 60
  {
    var latest := Latest(rows, c.email, c.purpose);
    if latest.Some? {
      var k :| 0 <= k < |rows| && rows[k] == latest.value;
      assert rows[k].resendAt == rows[k].createdAt + RESEND_SECONDS;
    }
  }

  /** The first of the five reasons that applies. */
  ghost predicate RefusedBecause(rows: seq<Row>, c: Creation, error: Option<Error>) {
    var emails := set i: nat | i < |rows| && rows[i].email == c.email && c.now - 3600 < rows[i].createdAt;
    var addresses := set i: nat | i < |rows| && rows[i].ip == c.ip && c.now - 3600 < rows[i].createdAt;
    var soon := exists j :: 0 <= j < |rows| && rows[j].email == c.email && rows[j].purpose == c.purpose && c.now < rows[j].createdAt + 60;
    match error
    case Some(InvalidPurpose) => c.purpose !in PURPOSES
    case Some(EmailRateLimited) => c.purpose in PURPOSES && |emails| >= 5
    case Some(IpRateLimited) => c.purpose in PURPOSES && |emails| < 5 && c.ip != "" && |addresses| >= 20
    case Some(ResendTooSoon) => c.purpose in PURPOSES && |emails| < 5 && (c.ip == "" || |addresses| < 20) && soon
    case Some(DuplicateId) =>
      && c.purpose in PURPOSES && |emails| < 5 && (c.ip == "" || |addresses| < 20) && !soon
      && exists j :: 0 <= j < |rows| && rows[j].id == c.id
    case None =>
      && c.purpose in PURPOSES && |emails| < 5 && (c.ip == "" || |addresses| < 20) && !soon
      && forall j | 0 <= j < |rows| :: rows[j].id != c.id
    case _ => false
  }

  lemma RefusalBecause(rows: seq<Row>, c: Creation)
    requires forall i | 0 <= i < |rows| :: rows[i].resendAt == rows[i].createdAt + RESEND_SECONDS
    ensures RefusedBecause(rows, c, Refusal(rows, c))
  {
    FullIff(rows, c);
    TooSoonIff(rows, c);
    if Find(rows, c.id).Some? {
      var k :| 0 <= k < |rows| && rows[k] == Find(rows, c.id).value;
    }
  }

  /** The operations as the application calls them, each in a transaction. */
  class ChallengeTable {
    var rows: seq<Row>

    ghost predicate Valid()
      reads this
    {
      && UniqueIds(rows)
      && forall i | 0 <= i < |rows| ::
           rows[i].resendAt == rows[i].createdAt + RESEND_SECONDS && rows[i].consumedAt >= 0 && rows[i].invalidatedAt >= 0
    }

    constructor ()
      ensures Valid() && rows == []
    {
      rows := [];
    }

    /** Inserts a paced row with a new id, or tells why not. */
    method Create(c: Creation) returns (error: Option<Error>)
      requires Valid()
      modifies this
      ensures Valid()
      ensures error == Refusal(old(rows), c) && RefusedBecause(old(rows), c, error)
      ensures rows == Created(old(rows), c)
      ensures error.None? ==>
                && |rows| == |old(rows)| + 1 && rows[..|old(rows)|] == old(rows)
                && IsFresh(rows[|old(rows)|], c) && Paced(old(rows), rows[|old(rows)|])
                && forall i | 0 <= i < |old(rows)| :: old(rows)[i].id != c.id
      ensures error.Some? ==> rows == old(rows)
    {
      RefusalBecause(rows, c);
      if c.purpose !in PURPOSES {
        return Some(InvalidPurpose);
      }
      var hourAgo := c.now - HOUR;
      if Count(rows, CreatedSince(c.email, hourAgo)) >= EMAIL_HOURLY_LIMIT {
        return Some(EmailRateLimited);
      }
      if c.ip != "" {
        if Count(rows, CreatedFrom(c.ip, hourAgo)) >= IP_HOURLY_LIMIT {
          return Some(IpRateLimited);
        }
      }
      var recent := Latest(rows, c.email, c.purpose);
      if recent.Some? && recent.value.resendAt > c.now {
        return Some(ResendTooSoon);
      }
      if Find(rows, c.id).Some? {
        return Some(DuplicateId);
      }
      TooSoonIff(rows, c);
      rows := rows + [NewRow(c)];
      error := None;
    }

    /** Delivers a pending challenge, which becomes the only open one of its key. */
    method MarkSent(id: string, now: int) returns (ok: bool)
      requires Valid() && now > 0
      modifies this
      ensures Valid()
      ensures ok == SentHit(old(rows), id) && rows == MarkedSent(old(rows), id, now)
      ensures SentEffect(old(rows), rows, id, now, ok)
      ensures ok ==> exists i :: 0 <= i < |rows| && rows[i].id == id && OnlyOpen(rows, i)
      ensures !ok ==> rows == old(rows)
    {
      SentMeans(rows, id, now);
      if SentHit(rows, id) {
        SentIsOnlyOpen(rows, MarkedSent(rows, id, now), id, now);
      }
      var row := Find(rows, id);
      if row.None? {
        return false;
      }
      var rowCount := Count(rows, Sendable(id));
      rows := Update(rows, Sendable(id), Deliver(now));
      if rowCount == 1 {
        rows := Update(rows, OthersOpen(row.value), Invalidate(now));
      }
      ok := rowCount == 1;
    }

    /** Closes a challenge whose delivery failed, and changes no other row. */
    method MarkFailed(id: string, now: int) returns (ok: bool)
      requires Valid() && now > 0
      modifies this
      ensures Valid()
      ensures rows == MarkedFailed(old(rows), id, now)
      ensures ok ==>
                exists i :: 0 <= i < |old(rows)| && PendingIs(old(rows)[i], id)
                            && rows == old(rows)[i := old(rows)[i].(status := Failed, invalidatedAt := now, updatedAt := now)]
      ensures !ok ==> rows == old(rows) && forall i | 0 <= i < |rows| :: !PendingIs(rows[i], id)
    {
      var fail := (r: Row) => r.(status := Failed, invalidatedAt := now, updatedAt := now);
      ghost var i := UpdateOne(rows, Failable(id), fail, id);
      ok := Count(rows, Failable(id)) == 1;
      rows := Update(rows, Failable(id), fail);
    }

    method VerifyAndConsume(q: Request) returns (error: Option<Error>)
      requires Valid() && q.now > 0
      modifies this
      ensures Valid()
      ensures error == Outcome(old(rows), q) && rows == Verified(old(rows), q)
      ensures VerifyEffect(old(rows), rows, q, error)
    {
      VerifiedEffect(rows, q);
      VerifiedValid(rows, q);
      var row := Find(rows, q.id);
      match Decide(row, q) {
        case Reject(e) =>
          error := Some(e);
        case Expire =>
          rows := Update(rows, NotInvalidated(q.id), Invalidate(q.now));
          error := Some(Expired);
        case Miss(lockAt) =>
          rows := Update(rows, Open(q.id), CountFailure(lockAt, q.now));
          error := Some(if lockAt > 0 then AttemptsExceeded else CodeInvalid);
        case Consume =>
          var rowCount := Count(rows, Consumable(q.id, q.now));
          rows := Update(rows, Consumable(q.id, q.now), MarkConsumed(q.now));
          error := if rowCount == 1 then None else Some(Consumed);
      }
    }
  }
}
