/**
 The notification outbox as values: an entry, the conditional updates the store performs on it,
 and what those updates can and cannot do to one row.
 */
module NotifyOutbox {
  import opened Prelude

  datatype State = Pending | Sent | Expired | Canceled | DeadLetter

  datatype EventId = EventId(text: string)

  /** A claim token: the text of a random UUID. */
  datatype Token = Token(text: string)

  /** While unclaimed `nextAttemptAt` says when a retry is due; while claimed, when the lease ends. */
  datatype Entry = Entry(id: int, eventId: EventId, deviceId: int, userId: int, state: State,
                         attemptCount: int, maxAttempts: int, nextAttemptAt: Option<Time>,
                         expiresAt: Time, createdAt: Time, claimToken: Option<Token>)

  type Outbox = map<int, Entry>

  datatype Error = Input | Forbidden | NotFound | Conflict | Unavailable

  predicate LowerHex(c: char) {
    '0' <= c <= '9' || 'a' <= c <= 'f'
  }

  predicate ValidEventId(e: EventId) {
    |e.text| == 68 && e.text[..4] == "evt_" && forall i :: 4 <= i < 68 ==> LowerHex(e.text[i])
  }

  predicate ValidToken(t: Token) {
    |t.text| == 36 && forall i :: 0 <= i < 36 ==> if i in {8, 13, 18, 23} then t.text[i] == '-' else LowerHex(t.text[i])
  }

  /** One conditional UPDATE of one row. `Claim` is what both claiming methods do to the row they take. */
  datatype Change =
    | MarkSent(now: Time, token: Token)
    | RecordFailedAttempt(now: Time, next: Time, token: Token)
    | MarkExpired(now: Time)
    | MarkExpiredClaimed(now: Time, token: Token)
    | Cancel(now: Time)
    | CancelClaimed(now: Time, token: Token)
    | DeadLetterClaimed(now: Time, token: Token)
    | ReleaseClaim(now: Time, token: Token)
    | RescheduleClaim(now: Time, next: Time, token: Token)
    | Claim(now: Time, lease: Time, token: Token)
  {
    /** The call proves it holds a claim by presenting its token. */
    predicate Fenced() {
      !MarkExpired? && !Cancel? && !Claim?
    }

    /** What the store checks before it sends any SQL. */
    predicate WellFormed() {
      && !IsZero(now)
      && (Fenced() ==> ValidToken(token))
      && (RecordFailedAttempt? ==> !IsZero(next))
      && (RescheduleClaim? ==> !IsZero(next) && next > now)
      && (Claim? ==> lease > 0)
    }
  }

  predicate Due(e: Entry, now: Time) {
    match e.nextAttemptAt
    case Some(at) => e.state.Pending? && at <= now
    case None => false
  }

  /** The WHERE clause beyond the row's id. */
  predicate Where(e: Entry, c: Change) {
    && e.state.Pending?
    && (c.Fenced() ==> e.claimToken == Some(c.token))
    && match c
       case MarkExpired(now) => e.claimToken.None? && e.expiresAt <= now
       case MarkExpiredClaimed(now, _) => e.expiresAt <= now
       case Cancel(_) => e.claimToken.None?
       case RescheduleClaim(_, next, _) => next <= e.expiresAt
       case Claim(now, _, _) => Due(e, now)
       case _ => true
  }

  function Finished(e: Entry, state: State): Entry {
    e.(state := state, nextAttemptAt := None, claimToken := None)
  }

  /** The SET clause. */
  function Set(e: Entry, c: Change): Entry {
    match c
    case MarkSent(_, _) => Finished(e, Sent)
    case RecordFailedAttempt(now, next, _) =>
      var counted := e.(attemptCount := e.attemptCount + 1);
      if now >= e.expiresAt then Finished(counted, Expired)
      else if e.attemptCount + 1 >= e.maxAttempts then Finished(counted, DeadLetter)
      else counted.(nextAttemptAt := Some(next), claimToken := None)
    case MarkExpired(_) => e.(state := Expired, nextAttemptAt := None)
    case MarkExpiredClaimed(_, _) => Finished(e, Expired)
    case Cancel(_) => e.(state := Canceled, nextAttemptAt := None)
    case CancelClaimed(_, _) => Finished(e, Canceled)
    case DeadLetterClaimed(_, _) => Finished(e.(attemptCount := e.attemptCount + 1), DeadLetter)
    case ReleaseClaim(now, _) => e.(claimToken := None, nextAttemptAt := Some(now))
    case RescheduleClaim(_, next, _) => e.(claimToken := None, nextAttemptAt := Some(next))
    case Claim(now, lease, token) => e.(claimToken := Some(token), nextAttemptAt := Some(now + lease))
  }

  /** A whole store call: input check, conditional update, and the reason when no row matched. */
  function Performed(o: Outbox, id: int, c: Change): (Outbox, Result<Entry, Error>) {
    if id <= 0 || !c.WellFormed() then (o, Err(Input))
    else if id !in o then (o, Err(NotFound))
    else if !Where(o[id], c) then (o, Err(Conflict))
    else (o[id := Set(o[id], c)], Ok(Set(o[id], c)))
  }

  predicate Succeeds(o: Outbox, id: int, c: Change) {
    id > 0 && c.WellFormed() && id in o && Where(o[id], c)
  }

  /** One row per event and device. */
  predicate ForPair(e: Entry, eventId: EventId, deviceId: int) {
    e.eventId == eventId && e.deviceId == deviceId
  }

  ghost function RowFor(o: Outbox, eventId: EventId, deviceId: int): (r: Option<int>)
    ensures r.Some? ==> r.value in o && ForPair(o[r.value], eventId, deviceId)
    ensures r.None? ==> forall id :: id in o ==> !ForPair(o[id], eventId, deviceId)
  {
    if exists id :: id in o && ForPair(o[id], eventId, deviceId) then
      var id :| id in o && ForPair(o[id], eventId, deviceId);
      Some(id)
    else None
  }

  function NewEntry(id: int, now: Time, eventId: EventId, deviceId: int, userId: int, maxAttempts: int, first: Time,
                    expiresAt: Time): Entry {
    Entry(id, eventId, deviceId, userId, Pending, 0, maxAttempts, Some(first), expiresAt, now, None)
  }

  predicate EnqueueWellFormed(now: Time, eventId: EventId, deviceId: int, userId: int, maxAttempts: int, first: Time,
                              expiresAt: Time) {
    && !IsZero(now) && ValidEventId(eventId) && deviceId > 0 && userId > 0
    && maxAttempts > 0 && !IsZero(first) && expiresAt > now && first < expiresAt
  }

  /**
   `Enqueue`: the trigger on unmatched events fires before the conflict is looked for, and the foreign key to the
   device's owner is only checked for a row that is really inserted.
   */
  ghost function Enqueued(o: Outbox, owners: map<int, int>, matched: set<EventId>, now: Time, eventId: EventId,
                          deviceId: int, userId: int, maxAttempts: int, first: Time, expiresAt: Time,
                          newId: int): (Outbox, Result<Entry, Error>)
  {
    if !EnqueueWellFormed(now, eventId, deviceId, userId, maxAttempts, first, expiresAt) then (o, Err(Input))
    else if eventId !in matched then (o, Err(Input))
    else match RowFor(o, eventId, deviceId)
      case Some(id) => (o, Ok(o[id]))
      case None =>
        if deviceId !in owners || owners[deviceId] != userId then (o, Err(Forbidden))
        else
          var e := NewEntry(newId, now, eventId, deviceId, userId, maxAttempts, first, expiresAt);
          (o[newId := e], Ok(e))
  }

  // What holds of every row

  /** The table's CHECK constraints. */
  predicate Checked(e: Entry) {
    && (e.state.Pending? ==> e.nextAttemptAt.Some?)
    && (e.claimToken.Some? ==> e.state.Pending?)
    && 0 <= e.attemptCount <= e.maxAttempts && e.maxAttempts > 0
    && e.expiresAt > e.createdAt
  }

  /**
   Stronger than the constraints: a pending row always has an attempt left, sending or canceling uses none up, and a row
   that has ended is never due again.
   */
  predicate RowInv(e: Entry) {
    && Checked(e) && (e.state in {Pending, Sent, Canceled} ==> e.attemptCount < e.maxAttempts)
    && (e.nextAttemptAt.Some? ==> e.state.Pending?)
  }

  ghost predicate UniquePairs(o: Outbox) {
    forall i, j :: i in o && j in o && ForPair(o[i], o[j].eventId, o[j].deviceId) ==> i == j
  }

  ghost predicate OutboxInv(o: Outbox) {
    && (forall id :: id in o ==> id > 0 && o[id].id == id && RowInv(o[id]))
    && UniquePairs(o)
  }

  /** No update ever trips a CHECK constraint, because the row invariant survives every one of them. */
  lemma SetKeepsRowInv(e: Entry, c: Change)
    requires RowInv(e) && Where(e, c)
    ensures RowInv(Set(e, c))
  {
  }

  /** What an update can never touch, and what it does to the attempt counter. */
  lemma SetKeepsIdentity(e: Entry, c: Change)
    ensures var f := Set(e, c);
            && f.id == e.id && f.eventId == e.eventId && f.deviceId == e.deviceId && f.userId == e.userId
            && f.maxAttempts == e.maxAttempts && f.expiresAt == e.expiresAt && f.createdAt == e.createdAt
    ensures Set(e, c).attemptCount == e.attemptCount + if c.RecordFailedAttempt? || c.DeadLetterClaimed? then 1 else 0
  {
  }

  lemma PerformedKeepsInv(o: Outbox, id: int, c: Change)
    requires OutboxInv(o)
    ensures OutboxInv(Performed(o, id, c).0)
  {
    hide Where, Set, RowInv;
    if Succeeds(o, id, c) {
      SetKeepsRowInv(o[id], c);
      SetKeepsIdentity(o[id], c);
    }
  }

  /** A fresh id is above every id in use. */
  ghost predicate FreshId(o: Outbox, newId: int) {
    newId > 0 && forall id :: id in o ==> id < newId
  }

  lemma EnqueuedKeepsInv(o: Outbox, owners: map<int, int>, matched: set<EventId>, now: Time, eventId: EventId,
                         deviceId: int, userId: int, maxAttempts: int, first: Time, expiresAt: Time, newId: int)
    requires OutboxInv(o) && FreshId(o, newId)
    ensures OutboxInv(Enqueued(o, owners, matched, now, eventId, deviceId, userId, maxAttempts, first, expiresAt,
                               newId).0)
  {
    hide ValidEventId, RowFor;
  }

  /** Enqueueing leaves every row that was there as it was, and whatever it answers with is the row of the pair. */
  lemma EnqueuedEffect(o: Outbox, owners: map<int, int>, matched: set<EventId>, now: Time, eventId: EventId,
                       deviceId: int, userId: int, maxAttempts: int, first: Time, expiresAt: Time, newId: int)
    requires OutboxInv(o) && FreshId(o, newId)
    ensures var (after, r) := Enqueued(o, owners, matched, now, eventId, deviceId, userId, maxAttempts, first,
                                       expiresAt, newId);
            && (forall id :: id in o ==> id in after && after[id] == o[id])
            && (forall id :: id in after && id !in o ==>
                  after[id] == NewEntry(id, now, eventId, deviceId, userId, maxAttempts, first,
                                        expiresAt) && RowFor(o, eventId, deviceId).None?)
            && (r.Ok? ==> r.value.id in after && after[r.value.id] == r.value && ForPair(r.value, eventId, deviceId))
            && r != Err(Unavailable)
  {
    hide ValidEventId, RowFor, RowInv, UniquePairs;
  }

  /** Under the invariant there is only one row an (event, device) lookup can find. */
  lemma RowForIsUnique(o: Outbox, id: int)
    requires UniquePairs(o) && id in o
    ensures RowFor(o, o[id].eventId, o[id].deviceId) == Some(id)
  {
    var found := RowFor(o, o[id].eventId, o[id].deviceId);
    assert ForPair(o[id], o[id].eventId, o[id].deviceId);
    assert ForPair(o[found.value], o[id].eventId, o[id].deviceId);
  }

  // Fencing, one row at a time

  /** A call that presents the row's current token. */
  predicate Bears(c: Change, token: Token) {
    c.Fenced() && c.token == token
  }

  /** Until the lease ends only its holder can change a claimed row; a claim comes at or after the lease end. */
  lemma LeaseExcludes(e: Entry, c: Change, token: Token)
    requires e.claimToken == Some(token) && Where(e, c)
    ensures Bears(c, token) || (c.Claim? && e.nextAttemptAt.Some? && e.nextAttemptAt.value <= c.now)
  {
  }

  /** Any holder's call gives the claim up, and any later claim replaces the token. */
  lemma SuccessEndsClaim(e: Entry, c: Change)
    requires Where(e, c)
    ensures Set(e, c).claimToken == if c.Claim? then Some(c.token) else None
  {
  }
}
