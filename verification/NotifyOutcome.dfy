/**
 An attempt's outcome, recorded as one transaction: the outbox transition, its audit row, and for a device the push
 service no longer knows the revocation, all of them or none.
 */
module NotifyOutcome {
  import opened Prelude
  import opened NotifyOutbox
  import opened NotifyDelivery
  import DeviceRegistry
  import D = NotifyDevices
  import DB = NotifyDatabase
  import OutboxStore = NotifyOutboxStore
  import DeliveryStore = NotifyDeliveryStore
  import DeviceStore = NotifyDeviceStore

  /** The inner stores' errors reach the caller as they are. */
  datatype Error = Down | UnexpectedState | Outbox(outbox: NotifyOutbox.Error) | Audit(audit: DeliveryStore.Error)
                 | Device(device: DeviceStore.Error)

  /** Some statement could not reach the database, or its answer was lost. */
  predicate Unreachable(e: Error) {
    e == Down || e == Outbox(NotifyOutbox.Unavailable) || e == Audit(DeliveryStore.Unavailable)
    || e == Device(DeviceStore.Unavailable)
  }

  /** The tables a transaction touches. */
  datatype Tables = Tables(outbox: NotifyOutbox.Outbox, deliveries: seq<Delivery>, devices: DeviceRegistry.Devices)

  datatype Recording = Recording(entry: Entry, delivery: Delivery)

  /** The audit outcome that goes with the state a failed attempt left the entry in. */
  function OutcomeForState(s: State): Option<Outcome> {
    match s
    case Pending => Some(Outcome.Failed)
    case DeadLetter => Some(Outcome.DeadLetter)
    case Expired => Some(Outcome.Expired)
    case _ => None
  }

  /** The audit row as written: only `RecordFailedAttempt` overrides the caller's outcome. */
  function Written(c: Change, e: Entry, d: Delivery): Delivery {
    match OutcomeForState(e.state)
    case Some(outcome) => if c.RecordFailedAttempt? then d.(outcome := outcome) else d
    case None => d
  }

  function Recorded(t: Tables, id: int, c: Change, d: Delivery): (Tables, Result<Recording, Error>) {
    var (outbox, answer) := Performed(t.outbox, id, c);
    match answer
    case Err(e) => (t, Err(Outbox(e)))
    case Ok(e) =>
      var row := Written(c, e, d);
      if Recordable(outbox, row) then (t.(outbox := outbox, deliveries := t.deliveries + [row]), Ok(Recording(e, row)))
      else (t, Err(Audit(DeliveryStore.Input)))
  }

  function RecordedUnauthorized(t: Tables, now: Time, id: int, token: Token, d: Delivery, user: int,
                                device: int): (Tables, Result<Recording, Error>) {
    var (recorded, answer) := Recorded(t, id, Change.DeadLetterClaimed(now, token), d);
    if answer.Err? then (t, answer)
    else
      var (devices, revoked) := DeviceStore.RevokeOutcome(t.devices, now, user, device);
      match revoked
      case Ok(_) => (recorded.(devices := devices), answer)
      case Err(e) => (t, Err(Device(e)))
  }

  /**
   The whole transaction with its answer, or nothing at all because the database was unreachable; only when the answer
   to the commit itself is lost may everything have happened under an error.
   */
  predicate AllOrNothing(before: Tables, spec: (Tables, Result<Recording, Error>), after: Tables, r: Result<Recording,
                         Error>) {
    || (after == spec.0 && r == spec.1)
    || (after == before && r.Err? && Unreachable(r.error))
    || (after == spec.0 && r == Err(Down))
  }

  /**
   The state `RecordFailedAttempt` leaves always has an audit outcome: the error for an unexpected state is dead code.
   */
  lemma FailedAttemptHasOutcome(o: NotifyOutbox.Outbox, id: int, c: Change)
    requires c.RecordFailedAttempt?
    ensures match Performed(o, id, c).1 case Ok(e) => OutcomeForState(e.state).Some? case Err(_) => true
  {
  }

  /** The three recordings that write the caller's audit row as it is. */
  lemma RecordedAsGiven(t: Tables, id: int, c: Change, d: Delivery)
    requires !c.RecordFailedAttempt?
    ensures var (outbox, answer) := Performed(t.outbox, id, c);
            Recorded(t, id, c, d) ==
            match answer
            case Err(e) => (t, Err(Outbox(e)))
            case Ok(e) =>
              if Recordable(outbox, d) then
                (t.(outbox := outbox, deliveries := t.deliveries + [d]), Ok(Recording(e, d)))
              else (t, Err(Audit(DeliveryStore.Input)))
  {
    hide Performed, Recordable;
  }

  class Store {
    const authority: D.Authority
    const db: DB.Database

    constructor (authority: D.Authority, db: DB.Database)
      ensures this.authority == authority && this.db == db
    {
      this.authority, this.db := authority, db;
    }

    ghost function View(): Tables
      reads db
    {
      Tables(db.outbox, db.deliveries, DB.AsDevices(db.devices))
    }

    ghost predicate OutboxValid()
      reads db
    {
      OutboxStore.Sound(db.outbox, db.outboxSeq)
    }

    ghost predicate DevicesValid()
      reads db
    {
      DeviceStore.Sound(authority, db.users, db.devices, db.deviceSeq)
    }

    method Commit(outbox: NotifyOutbox.Outbox, deliveries: seq<Delivery>, devices: map<int, DB.DeviceRow>)
      returns (ok: bool)
      modifies db`outbox, db`deliveries, db`devices
      ensures ok ==> db.outbox == old(db.outbox) && db.deliveries == old(db.deliveries) && db.devices == old(db.devices)
      ensures !ok ==> (db.outbox == old(db.outbox) && db.deliveries == old(db.deliveries)
                       && db.devices == old(db.devices))
                      || (db.outbox == outbox && db.deliveries == deliveries && db.devices == devices)
    {
      var committed := db.Reach();
      if !committed {
        db.outbox, db.deliveries, db.devices := outbox, deliveries, devices;
        return false;
      }
      ok := db.Reach();
    }

    method RecordSent(now: Time, id: int, claimToken: Token, d: Delivery) returns (r: Result<Recording, Error>)
      requires OutboxValid()
      modifies db`outbox, db`deliveries, db`devices, db`issued
      ensures OutboxValid() && db.devices == old(db.devices) && db.issued == old(db.issued)
      ensures AllOrNothing(old(View()), Recorded(old(View()), id, Change.MarkSent(now, claimToken), d), View(), r)
    {
      hide OutboxStore.Sound, Performed, Recorded, Valid, DB.AsDevices;
      RecordedAsGiven(View(), id, Change.MarkSent(now, claimToken), d);
      var begun := db.Reach();
      if !begun {
        return Err(Down);
      }
      var before, log, devs := db.outbox, db.deliveries, db.devices;
      var outbox := new OutboxStore.Postgres(db);
      var entry := outbox.MarkSent(now, id, claimToken);
      if entry.Err? {
        db.outbox := before;
        return Err(Outbox(entry.error));
      }
      var deliveries := new DeliveryStore.Postgres(db);
      var recorded := deliveries.Record(d);
      if recorded.Err? {
        db.outbox, db.deliveries := before, log;
        return Err(Audit(recorded.error));
      }
      var ok := Commit(before, log, devs);
      return if ok then Ok(Recording(entry.value, recorded.value)) else Err(Down);
    }

    method RecordCanceled(now: Time, id: int, claimToken: Token, d: Delivery) returns (r: Result<Recording, Error>)
      requires OutboxValid()
      modifies db`outbox, db`deliveries, db`devices, db`issued
      ensures OutboxValid() && db.devices == old(db.devices) && db.issued == old(db.issued)
      ensures AllOrNothing(old(View()), Recorded(old(View()), id, Change.CancelClaimed(now, claimToken), d), View(), r)
    {
      hide OutboxStore.Sound, Performed, Recorded, Valid, DB.AsDevices;
      RecordedAsGiven(View(), id, Change.CancelClaimed(now, claimToken), d);
      var begun := db.Reach();
      if !begun {
        return Err(Down);
      }
      var before, log, devs := db.outbox, db.deliveries, db.devices;
      var outbox := new OutboxStore.Postgres(db);
      var entry := outbox.CancelClaimed(now, id, claimToken);
      if entry.Err? {
        db.outbox := before;
        return Err(Outbox(entry.error));
      }
      var deliveries := new DeliveryStore.Postgres(db);
      var recorded := deliveries.Record(d);
      if recorded.Err? {
        db.outbox, db.deliveries := before, log;
        return Err(Audit(recorded.error));
      }
      var ok := Commit(before, log, devs);
      return if ok then Ok(Recording(entry.value, recorded.value)) else Err(Down);
    }

    method RecordFailedAttempt(now: Time, id: int, next: Time, claimToken: Token,
                               d: Delivery) returns (r: Result<Recording, Error>)
      requires OutboxValid()
      modifies db`outbox, db`deliveries, db`devices, db`issued
      ensures OutboxValid() && db.devices == old(db.devices) && db.issued == old(db.issued)
      ensures AllOrNothing(old(View()), Recorded(old(View()), id, Change.RecordFailedAttempt(now, next, claimToken),
                                                 d), View(), r)
    {
      hide OutboxStore.Sound, Performed, Valid, DB.AsDevices;
      var begun := db.Reach();
      if !begun {
        return Err(Down);
      }
      var before, log, devs := db.outbox, db.deliveries, db.devices;
      var outbox := new OutboxStore.Postgres(db);
      var entry := outbox.RecordFailedAttempt(now, id, next, claimToken);
      if entry.Err? {
        db.outbox := before;
        return Err(Outbox(entry.error));
      }
      FailedAttemptHasOutcome(before, id, Change.RecordFailedAttempt(now, next, claimToken));
      var deliveries := new DeliveryStore.Postgres(db);
      var recorded;
      match OutcomeForState(entry.value.state) {
        case Some(outcome) => recorded := deliveries.Record(d.(outcome := outcome));
      }
      if recorded.Err? {
        db.outbox, db.deliveries := before, log;
        return Err(Audit(recorded.error));
      }
      var ok := Commit(before, log, devs);
      return if ok then Ok(Recording(entry.value, recorded.value)) else Err(Down);
    }

    /** The steps `RecordDeadLetter` and `RecordUnauthorized` share, inside a transaction that has begun. */
    method DeadLetterAndAudit(now: Time, id: int, claimToken: Token, d: Delivery) returns (r: Result<Recording, Error>)
      requires OutboxValid()
      modifies db`outbox, db`deliveries, db`issued
      ensures OutboxValid() && db.issued == old(db.issued)
      ensures var spec := Recorded(old(View()), id, Change.DeadLetterClaimed(now, claimToken), d);
              match r
              case Ok(_) => View() == spec.0 && r == spec.1
              case Err(e) =>
                db.outbox == old(db.outbox) && db.deliveries == old(db.deliveries)
                && (Unreachable(e) || r == spec.1)
    {
      hide OutboxStore.Sound, Performed, Recorded, Valid, DB.AsDevices;
      RecordedAsGiven(View(), id, Change.DeadLetterClaimed(now, claimToken), d);
      var before, log := db.outbox, db.deliveries;
      var outbox := new OutboxStore.Postgres(db);
      var entry := outbox.DeadLetterClaimed(now, id, claimToken);
      if entry.Err? {
        db.outbox := before;
        return Err(Outbox(entry.error));
      }
      var deliveries := new DeliveryStore.Postgres(db);
      var recorded := deliveries.Record(d);
      if recorded.Err? {
        assert Unreachable(Audit(recorded.error)) || !Recordable(db.outbox, d);
        db.outbox, db.deliveries := before, log;
        return Err(Audit(recorded.error));
      }
      return Ok(Recording(entry.value, recorded.value));
    }

    method RecordDeadLetter(now: Time, id: int, claimToken: Token, d: Delivery) returns (r: Result<Recording, Error>)
      requires OutboxValid()
      modifies db`outbox, db`deliveries, db`devices, db`issued
      ensures OutboxValid() && db.devices == old(db.devices) && db.issued == old(db.issued)
      ensures AllOrNothing(old(View()), Recorded(old(View()), id, Change.DeadLetterClaimed(now, claimToken), d), View(),
                           r)
    {
      hide OutboxStore.Sound, Recorded, DB.AsDevices;
      var begun := db.Reach();
      if !begun {
        return Err(Down);
      }
      var before, log, devs := db.outbox, db.deliveries, db.devices;
      RecordedFrame(View(), id, Change.DeadLetterClaimed(now, claimToken), d);
      r := DeadLetterAndAudit(now, id, claimToken, d);
      if r.Ok? {
        var ok := Commit(before, log, devs);
        r := if ok then r else Err(Down);
      }
    }

    /** The device is revoked in a nested transaction; for one already revoked only that savepoint is rolled back. */
    method RecordUnauthorized(now: Time, id: int, claimToken: Token, d: Delivery, user: int,
                              device: int) returns (r: Result<Recording, Error>)
      requires OutboxValid() && DevicesValid()
      modifies db`outbox, db`deliveries, db`devices, db`issued
      ensures OutboxValid() && DevicesValid() && db.issued == old(db.issued)
      ensures AllOrNothing(old(View()), RecordedUnauthorized(old(View()), now, id, claimToken, d, user, device), View(),
                           r)
    {
      hide OutboxStore.Sound, Recorded, DB.AsDevices, DeviceStore.Sound, DeviceStore.RevokeOutcome;
      var begun := db.Reach();
      if !begun {
        return Err(Down);
      }
      var before, log, devs := db.outbox, db.deliveries, db.devices;
      RecordedFrame(View(), id, Change.DeadLetterClaimed(now, claimToken), d);
      r := DeadLetterAndAudit(now, id, claimToken, d);
      if r.Ok? {
        var devices := new DeviceStore.Postgres(authority, db);
        var revoked := devices.Revoke(now, user, device);
        if revoked.Err? {
          db.outbox, db.deliveries, db.devices := before, log, devs;
          return Err(Device(revoked.error));
        }
        var ok := Commit(before, log, devs);
        r := if ok then r else Err(Down);
      }
    }
  }

  lemma RecordedFrame(t: Tables, id: int, c: Change, d: Delivery)
    ensures Recorded(t, id, c, d).0.devices == t.devices
    ensures Recorded(t, id, c, d).1.Err? ==> Recorded(t, id, c, d).0 == t
  {
  }

  /**
   An unauthorized outcome dead-letters the entry, appends exactly one audit row and leaves the device revoked, and it
   does so exactly when the token still holds the claim, the audit row is acceptable and the device is the user's;
   in every other case it does nothing. An already revoked device keeps its first revocation.
   */
  lemma UnauthorizedIsWhole(t: Tables, now: Time, id: int, token: Token, d: Delivery, user: int, device: int)
    ensures var c := Change.DeadLetterClaimed(now, token);
            var (after, r) := RecordedUnauthorized(t, now, id, token, d, user, device);
            && (r.Ok? <==>
                && Succeeds(t.outbox, id, c) && Recordable(t.outbox, d)
                && user > 0 && device > 0 && device in t.devices && t.devices[device].userId == user)
            && (r.Err? ==> after == t)
            && (r.Ok? ==>
                && after.outbox == t.outbox[id := Set(t.outbox[id], c)] && after.outbox[id].state.DeadLetter?
                && after.deliveries == t.deliveries + [d]
                && device in after.devices && after.devices[device].revokedAt.Some?
                && (t.devices[device].revokedAt.Some? ==> after.devices == t.devices))
  {
    hide ValidToken, Valid;
    var c := Change.DeadLetterClaimed(now, token);
    if Succeeds(t.outbox, id, c) {
      SetKeepsIdentity(t.outbox[id], c);
      assert Recordable(t.outbox, d) <==> Recordable(Performed(t.outbox, id, c).0, d);
    }
  }
}
