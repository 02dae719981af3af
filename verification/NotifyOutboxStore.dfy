/**
 The outbox store: every method is one atomic conditional statement on the shared table, so that any interleaving of
 workers is a sequence of these calls. A claim's random token is an argument, never handed out before.
 */
module NotifyOutboxStore {
  import opened Prelude
  import opened NotifyOutbox
  import DB = NotifyDatabase

  /** A row a claim may take: due, and not locked by a transaction still under way. */
  predicate Claimable(o: Outbox, now: Time, locked: set<int>, id: int) {
    id in o && id !in locked && Due(o[id], now)
  }

  predicate LeastDue(o: Outbox, now: Time, locked: set<int>, id: int) {
    Claimable(o, now, locked, id) &&
    forall other :: other in o && Claimable(o, now, locked, other) ==>
                      o[id].nextAttemptAt.value <= o[other].nextAttemptAt.value
  }

  function DueAt(e: Entry): Time {
    match e.nextAttemptAt
    case Some(at) => at
    case None => 0
  }

  /** `SELECT ... ORDER BY next_attempt_at LIMIT 1` has an answer whenever some row qualifies. */
  lemma {:induction false} LeastDueExists(o: Outbox, now: Time, locked: set<int>, id: int)
    requires Claimable(o, now, locked, id)
    ensures exists least :: least in o && LeastDue(o, now, locked, least)
    decreases Sooner(o, now, locked, DueAt(o[id]))
  {
    if !LeastDue(o, now, locked, id) {
      var other :| other in o && Claimable(o, now, locked, other) && DueAt(o[other]) < DueAt(o[id]);
      assert other in Sooner(o, now, locked, DueAt(o[id])) - Sooner(o, now, locked, DueAt(o[other]));
      LeastDueExists(o, now, locked, other);
    }
  }

  ghost function Sooner(o: Outbox, now: Time, locked: set<int>, at: Time): set<int> {
    set other | other in o && Claimable(o, now, locked, other) && DueAt(o[other]) < at
  }

  /** The tokens issued once a claim of `id` has been performed: the new one stands for the entry it returned. */
  function Issued(issued: map<Token, Entry>, o: Outbox, id: int, c: Change): map<Token, Entry> {
    if c.Claim? && Succeeds(o, id, c) then issued[c.token := Set(o[id], c)] else issued
  }

  /** What a call does to the table and to the record of issued tokens, and what it answers. */
  function Effect(o: Outbox, issued: map<Token, Entry>, id: int,
                  c: Change): ((Outbox, map<Token, Entry>), Result<Entry, Error>) {
    ((Performed(o, id, c).0, Issued(issued, o, id, c)), Performed(o, id, c).1)
  }

  /** What the store relies on: the row invariant, and a sequence ahead of every id. */
  ghost predicate Sound(o: Outbox, sequence: int) {
    OutboxInv(o) && sequence >= 0 && forall id :: id in o ==> id <= sequence
  }

  class Postgres {
    const db: DB.Database

    constructor (db: DB.Database)
      ensures this.db == db
    {
      this.db := db;
    }

    ghost predicate Valid()
      reads db
    {
      Sound(db.outbox, db.outboxSeq)
    }

    ghost function State(): (Outbox, map<Token, Entry>)
      reads db
    {
      (db.outbox, db.issued)
    }

    /**
     One UPDATE of one row, acting like `c`. When no row matches, a second query tells a missing row from a conflict.
     */
    method Update(id: int, where: Entry -> bool, assign: Entry -> Entry, ghost c: Change)
      returns (r: Result<Entry, Error>)
      requires Valid() && id > 0 && c.WellFormed()
      requires forall e :: where(e) == Where(e, c) && (where(e) ==> assign(e) == Set(e, c))
      modifies db`outbox, db`issued
      ensures Valid()
      ensures Answered(old(State()), Effect(old(db.outbox), old(db.issued), id, c), State(), r, Unavailable)
      ensures !c.Claim? ==> db.issued == old(db.issued)
    {
      hide OutboxInv, Where, Set;
      var up := db.Reach();
      if !up {
        return Err(Unavailable);
      }
      if id !in db.outbox {
        return Err(NotFound);
      }
      var row := db.outbox[id];
      if !where(row) {
        return Err(Conflict);
      }
      PerformedKeepsInv(db.outbox, id, c);
      db.issued := Issued(db.issued, db.outbox, id, c);
      row := assign(row);
      db.outbox := db.outbox[id := row];
      var heard := db.Reach();
      return if heard then Ok(row) else Err(Unavailable);
    }

    /** INSERT ... ON CONFLICT DO NOTHING, and a second query for the row that was already there. */
    method Enqueue(now: Time, eventId: EventId, deviceId: int, userId: int, maxAttempts: int, first: Time,
                   expiresAt: Time)
      returns (r: Result<Entry, Error>)
      requires Valid()
      modifies db`outbox, db`outboxSeq
      ensures Valid()
      ensures var spec := Enqueued(old(db.outbox), DB.Owners(DB.AsDevices(db.devices)), db.matched, now, eventId,
                                   deviceId, userId,
                                   maxAttempts, first, expiresAt, old(db.outboxSeq) + 1);
              Answered(old(db.outbox), spec, db.outbox, r, Unavailable)
    {
      hide RowFor, OutboxInv, ValidEventId;
      if IsZero(now) || !ValidEventId(eventId) || deviceId <= 0 || userId <= 0 || maxAttempts <= 0
         || IsZero(first) || expiresAt <= now || first >= expiresAt {
        return Err(Input);
      }
      var up := db.Reach();
      if !up {
        return Err(Unavailable);
      }
      InsertKeepsValid(DB.Owners(DB.AsDevices(db.devices)), now, eventId, deviceId, userId, maxAttempts, first,
                       expiresAt);
      db.outboxSeq := db.outboxSeq + 1;
      if eventId !in db.matched {
        return Err(Input);
      }
      if exists id :: id in db.outbox && ForPair(db.outbox[id], eventId, deviceId) {
        var id :| id in db.outbox && ForPair(db.outbox[id], eventId, deviceId);
        OnlyRowFor(db.outbox, id, eventId, deviceId);
        up := db.Reach();
        return if up then Ok(db.outbox[id]) else Err(Unavailable);
      }
      if deviceId !in db.devices || db.devices[deviceId].userId != userId {
        return Err(Forbidden);
      }
      var e := Entry(db.outboxSeq, eventId, deviceId, userId, Pending, 0, maxAttempts, Some(first), expiresAt, now,
                     None);
      db.outbox := db.outbox[e.id := e];
      up := db.Reach();
      return if up then Ok(e) else Err(Unavailable);
    }

    lemma InsertKeepsValid(owners: map<int, int>, now: Time, eventId: EventId, deviceId: int, userId: int,
                           maxAttempts: int, first: Time, expiresAt: Time)
      requires Valid()
      ensures OutboxInv(Enqueued(db.outbox, owners, db.matched, now, eventId, deviceId, userId, maxAttempts, first,
                                 expiresAt, db.outboxSeq + 1).0)
    {
      hide RowFor, Enqueued;
      EnqueuedKeepsInv(db.outbox, owners, db.matched, now, eventId, deviceId, userId, maxAttempts, first, expiresAt,
                       db.outboxSeq + 1);
    }

    method MarkSent(now: Time, id: int, claimToken: Token) returns (r: Result<Entry, Error>)
      requires Valid()
      modifies db`outbox, db`issued
      ensures Valid() && db.issued == old(db.issued)
      ensures var spec := Performed(old(db.outbox), id, Change.MarkSent(now, claimToken));
              Answered(old(db.outbox), spec, db.outbox, r, Unavailable)
      ensures r == Err(Input) <==> IsZero(now) || id <= 0 || !ValidToken(claimToken)
    {
      if IsZero(now) || id <= 0 || !ValidToken(claimToken) {
        return Err(Input);
      }
      r := Update(id, (e: Entry) => e.state.Pending? && e.claimToken == Some(claimToken),
                  (e: Entry) => e.(state := Sent, nextAttemptAt := None, claimToken := None),
                  Change.MarkSent(now, claimToken));
    }

    method RecordFailedAttempt(now: Time, id: int, next: Time, claimToken: Token) returns (r: Result<Entry, Error>)
      requires Valid()
      modifies db`outbox, db`issued
      ensures Valid() && db.issued == old(db.issued)
      ensures var spec := Performed(old(db.outbox), id, Change.RecordFailedAttempt(now, next, claimToken));
              Answered(old(db.outbox), spec, db.outbox, r, Unavailable)
      ensures r == Err(Input) <==> IsZero(now) || id <= 0 || IsZero(next) || !ValidToken(claimToken)
    {
      if IsZero(now) || id <= 0 || IsZero(next) || !ValidToken(claimToken) {
        return Err(Input);
      }
      r := Update(id, (e: Entry) => e.state.Pending? && e.claimToken == Some(claimToken),
                  (e: Entry) => e.(state := if now >= e.expiresAt then Expired
                        else if e.attemptCount + 1 >= e.maxAttempts then DeadLetter else Pending,
                                   attemptCount := e.attemptCount + 1,
                                   nextAttemptAt := if now >= e.expiresAt then None
                                         else if e.attemptCount + 1 >= e.maxAttempts then None else Some(next),
                                   claimToken := None), Change.RecordFailedAttempt(now, next, claimToken));
    }

    method MarkExpired(now: Time, id: int) returns (r: Result<Entry, Error>)
      requires Valid()
      modifies db`outbox, db`issued
      ensures Valid() && db.issued == old(db.issued)
      ensures var spec := Performed(old(db.outbox), id, Change.MarkExpired(now));
              Answered(old(db.outbox), spec, db.outbox, r, Unavailable)
      ensures r == Err(Input) <==> IsZero(now) || id <= 0
    {
      if IsZero(now) || id <= 0 {
        return Err(Input);
      }
      r := Update(id, (e: Entry) => e.state.Pending? && e.claimToken.None? && e.expiresAt <= now,
                  (e: Entry) => e.(state := Expired, nextAttemptAt := None), Change.MarkExpired(now));
    }

    method Cancel(now: Time, id: int) returns (r: Result<Entry, Error>)
      requires Valid()
      modifies db`outbox, db`issued
      ensures Valid() && db.issued == old(db.issued)
      ensures var spec := Performed(old(db.outbox), id, Change.Cancel(now));
              Answered(old(db.outbox), spec, db.outbox, r, Unavailable)
      ensures r == Err(Input) <==> IsZero(now) || id <= 0
    {
      if IsZero(now) || id <= 0 {
        return Err(Input);
      }
      r := Update(id, (e: Entry) => e.state.Pending? && e.claimToken.None?,
                  (e: Entry) => e.(state := Canceled, nextAttemptAt := None), Change.Cancel(now));
    }

    method ReleaseClaim(now: Time, id: int, claimToken: Token) returns (r: Result<Entry, Error>)
      requires Valid()
      modifies db`outbox, db`issued
      ensures Valid() && db.issued == old(db.issued)
      ensures var spec := Performed(old(db.outbox), id, Change.ReleaseClaim(now, claimToken));
              Answered(old(db.outbox), spec, db.outbox, r, Unavailable)
      ensures r == Err(Input) <==> IsZero(now) || id <= 0 || !ValidToken(claimToken)
    {
      if IsZero(now) || id <= 0 || !ValidToken(claimToken) {
        return Err(Input);
      }
      r := Update(id, (e: Entry) => e.state.Pending? && e.claimToken == Some(claimToken),
                  (e: Entry) => e.(claimToken := None, nextAttemptAt := Some(now)),
                  Change.ReleaseClaim(now, claimToken));
    }

    method RescheduleClaim(now: Time, id: int, claimToken: Token, next: Time) returns (r: Result<Entry, Error>)
      requires Valid()
      modifies db`outbox, db`issued
      ensures Valid() && db.issued == old(db.issued)
      ensures var spec := Performed(old(db.outbox), id, Change.RescheduleClaim(now, next, claimToken));
              Answered(old(db.outbox), spec, db.outbox, r, Unavailable)
      ensures r == Err(Input) <==> IsZero(now) || id <= 0 || !ValidToken(claimToken) || IsZero(next) || next <= now
    {
      if IsZero(now) || id <= 0 || !ValidToken(claimToken) || IsZero(next) || next <= now {
        return Err(Input);
      }
      r := Update(id, (e: Entry) => e.state.Pending? && e.claimToken == Some(claimToken) && next <= e.expiresAt,
                  (e: Entry) => e.(claimToken := None, nextAttemptAt := Some(next)),
                  Change.RescheduleClaim(now, next, claimToken));
    }

    method MarkExpiredClaimed(now: Time, id: int, claimToken: Token) returns (r: Result<Entry, Error>)
      requires Valid()
      modifies db`outbox, db`issued
      ensures Valid() && db.issued == old(db.issued)
      ensures var spec := Performed(old(db.outbox), id, Change.MarkExpiredClaimed(now, claimToken));
              Answered(old(db.outbox), spec, db.outbox, r, Unavailable)
      ensures r == Err(Input) <==> IsZero(now) || id <= 0 || !ValidToken(claimToken)
    {
      if IsZero(now) || id <= 0 || !ValidToken(claimToken) {
        return Err(Input);
      }
      r := Update(id, (e: Entry) => e.state.Pending? && e.claimToken == Some(claimToken) && e.expiresAt <= now,
                  (e: Entry) => e.(state := Expired, nextAttemptAt := None, claimToken := None),
                        Change.MarkExpiredClaimed(now, claimToken));
    }

    method CancelClaimed(now: Time, id: int, claimToken: Token) returns (r: Result<Entry, Error>)
      requires Valid()
      modifies db`outbox, db`issued
      ensures Valid() && db.issued == old(db.issued)
      ensures var spec := Performed(old(db.outbox), id, Change.CancelClaimed(now, claimToken));
              Answered(old(db.outbox), spec, db.outbox, r, Unavailable)
      ensures r == Err(Input) <==> IsZero(now) || id <= 0 || !ValidToken(claimToken)
    {
      if IsZero(now) || id <= 0 || !ValidToken(claimToken) {
        return Err(Input);
      }
      r := Update(id, (e: Entry) => e.state.Pending? && e.claimToken == Some(claimToken),
                  (e: Entry) => e.(state := Canceled, nextAttemptAt := None, claimToken := None),
                        Change.CancelClaimed(now, claimToken));
    }

    method DeadLetterClaimed(now: Time, id: int, claimToken: Token) returns (r: Result<Entry, Error>)
      requires Valid()
      modifies db`outbox, db`issued
      ensures Valid() && db.issued == old(db.issued)
      ensures var spec := Performed(old(db.outbox), id, Change.DeadLetterClaimed(now, claimToken));
              Answered(old(db.outbox), spec, db.outbox, r, Unavailable)
      ensures r == Err(Input) <==> IsZero(now) || id <= 0 || !ValidToken(claimToken)
    {
      if IsZero(now) || id <= 0 || !ValidToken(claimToken) {
        return Err(Input);
      }
      r := Update(id, (e: Entry) => e.state.Pending? && e.claimToken == Some(claimToken),
                  (e: Entry) => e.(state := DeadLetter, attemptCount := e.attemptCount + 1, nextAttemptAt := None,
                                   claimToken := None), Change.DeadLetterClaimed(now, claimToken));
    }

    /** `token` is the random UUID drawn for this claim. */
    method ClaimSpecific(now: Time, id: int, lease: Time, token: Token) returns (r: Result<Entry, Error>)
      requires Valid() && ValidToken(token)
      modifies db`outbox, db`issued
      ensures Valid()
      ensures var c := Change.Claim(now, lease, token);
              Answered(old(State()), Effect(old(db.outbox), old(db.issued), id, c), State(), r, Unavailable)
      ensures r == Err(Input) <==> IsZero(now) || id <= 0 || lease <= 0
    {
      if IsZero(now) || id <= 0 || lease <= 0 {
        return Err(Input);
      }
      r := Update(id, (e: Entry) => e.state.Pending? && e.nextAttemptAt.Some? && e.nextAttemptAt.value <= now,
                  (e: Entry) => e.(claimToken := Some(token), nextAttemptAt := Some(now + lease)),
                  Change.Claim(now, lease, token));
    }

    /** Claims the row due first among those no transaction under way has locked, or reports that there is none. */
    method ClaimNextDue(now: Time, lease: Time, token: Token, locked: set<int>)
      returns (r: Result<Option<Entry>, Error>)
      requires Valid() && ValidToken(token)
      modifies db`outbox, db`issued
      ensures Valid()
      ensures IsZero(now) || lease <= 0 ==> r == Err(Input) && State() == old(State())
      ensures !IsZero(now) && lease > 0 ==> r != Err(Input)
      ensures match r
              case Ok(Some(e)) =>
                && e.id in old(db.outbox) && LeastDue(old(db.outbox), now, locked, e.id)
                && State() == Effect(old(db.outbox), old(db.issued), e.id, Change.Claim(now, lease, token)).0
                && e == db.outbox[e.id]
                && e.id !in locked && old(db.outbox)[e.id].nextAttemptAt.Some?
                && (forall id :: id in old(db.outbox) && id !in locked && old(db.outbox)[id].state.Pending? ==>
                      old(db.outbox)[id].nextAttemptAt.Some?
                      && old(db.outbox)[e.id].nextAttemptAt.value <= old(db.outbox)[id].nextAttemptAt.value)
              case Ok(None) =>
                && State() == old(State()) && (forall id :: id in db.outbox ==> !Claimable(db.outbox, now, locked, id))
                && forall id :: id in db.outbox && id !in locked && db.outbox[id].state.Pending? ==>
                     db.outbox[id].nextAttemptAt.Some? && now < db.outbox[id].nextAttemptAt.value
              case Err(_) =>
                State() == old(State()) ||
                exists id :: id in old(db.outbox) && LeastDue(old(db.outbox), now, locked, id)
                          && State() == Effect(old(db.outbox), old(db.issued), id, Change.Claim(now, lease, token)).0
    {
      hide OutboxInv, Set, ValidToken;
      if IsZero(now) || lease <= 0 {
        return Err(Input);
      }
      var up := db.Reach();
      if !up {
        return Err(Unavailable);
      }
      PendingHaveTimes(db.outbox);
      if !exists id :: id in db.outbox && Claimable(db.outbox, now, locked, id) {
        return Ok(None);
      }
      ghost var some :| some in db.outbox && Claimable(db.outbox, now, locked, some);
      LeastDueExists(db.outbox, now, locked, some);
      var id :| id in db.outbox && LeastDue(db.outbox, now, locked, id);
      RowIds(db.outbox, id);
      SetKeepsIdentity(db.outbox[id], Change.Claim(now, lease, token));
      var answer := ClaimSpecific(now, id, lease, token);
      match answer {
        case Ok(e) => return Ok(Some(e));
        case Err(e) => return Err(e);
      }
    }

    method Get(id: int) returns (r: Result<Option<Entry>, Error>)
      ensures r == Err(Unavailable) ||
              r == if id <= 0 then Err(Input) else if id in db.outbox then Ok(Some(db.outbox[id])) else Ok(None)
    {
      if id <= 0 {
        return Err(Input);
      }
      var up := db.Reach();
      return if !up then Err(Unavailable) else if id in db.outbox then Ok(Some(db.outbox[id])) else Ok(None);
    }
  }

  lemma PendingHaveTimes(o: Outbox)
    requires OutboxInv(o)
    ensures forall id :: id in o && o[id].state.Pending? ==> o[id].nextAttemptAt.Some?
  {
  }

  lemma OnlyRowFor(o: Outbox, id: int, eventId: EventId, deviceId: int)
    requires OutboxInv(o) && id in o && ForPair(o[id], eventId, deviceId)
    ensures RowFor(o, eventId, deviceId) == Some(id)
  {
    hide RowInv;
    RowForIsUnique(o, id);
  }

  lemma RowIds(o: Outbox, id: int)
    requires OutboxInv(o) && id in o
    ensures id > 0 && o[id].id == id
  {
  }
}
