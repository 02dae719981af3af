/**
 Runs of the notification tables under any interleaving of callers. Every store call is one step; a step that is refused
 or never reaches the database changes nothing.
 */
module NotifyProtocol {
  import opened Prelude
  import opened NotifyOutbox
  import opened NotifyDelivery
  import DeviceRegistry
  import DB = NotifyDatabase
  import Store = NotifyOutboxStore
  import opened NotifyOutcome

  datatype Db = Db(t: Tables, matched: set<EventId>, issued: map<Token, Entry>)

  datatype Op =
    | Enqueue(now: Time, eventId: EventId, deviceId: int, userId: int, maxAttempts: int, first: Time,
              expiresAt: Time, newId: int)
    | Update(id: int, c: Change)
    | Record(id: int, c: Change, d: Delivery)
    | RecordUnauthorized(now: Time, id: int, token: Token, d: Delivery, userId: int, deviceId: int)
    | Device(op: DeviceRegistry.Op)
    | Match(eventId: EventId)

  ghost function Step(db: Db, op: Op): Db {
    match op
    case Enqueue(now, ev, dev, user, max, first, expires, newId) =>
      db.(t := db.t.(outbox := Enqueued(db.t.outbox, DB.Owners(db.t.devices), db.matched, now, ev, dev, user, max,
                                        first, expires, newId).0))
    case Update(id, c) =>
      db.(t := db.t.(outbox := Performed(db.t.outbox, id, c).0), issued := Store.Issued(db.issued, db.t.outbox, id, c))
    case Record(id, c, d) => db.(t := Recorded(db.t, id, c, d).0)
    case RecordUnauthorized(now, id, token, d, user, dev) =>
      db.(t := RecordedUnauthorized(db.t, now, id, token, d, user, dev).0)
    case Device(o) => db.(t := db.t.(devices := DeviceRegistry.Apply(db.t.devices, o).0))
    case Match(ev) => db.(matched := db.matched + {ev})
  }

  /** The four transitions that are recorded together with an audit row. */
  predicate Recording(c: Change) {
    c.MarkSent? || c.CancelClaimed? || c.RecordFailedAttempt? || c.DeadLetterClaimed?
  }

  /** Fresh ids and fresh tokens; nothing else is asked of a caller. */
  ghost predicate Enabled(db: Db, op: Op) {
    match op
    case Enqueue(_, _, _, _, _, _, _, newId) => FreshId(db.t.outbox, newId)
    case Update(_, c) => c.Claim? ==> c.token !in db.issued
    case Record(_, c, _) => Recording(c)
    case Device(o) => DeviceRegistry.Enabled(db.t.devices, o)
    case _ => true
  }

  /** The transition a step attempts on an existing outbox row. */
  function Attempted(op: Op): Option<(int, Change)> {
    match op
    case Update(id, c) => Some((id, c))
    case Record(id, c, _) => Some((id, c))
    case RecordUnauthorized(now, id, token, _, _, _) => Some((id, Change.DeadLetterClaimed(now, token)))
    case _ => None
  }

  /** What can happen to one existing row in one step: nothing, or the attempted transition. */
  lemma StepOnRow(db: Db, op: Op, id: int)
    requires id in db.t.outbox && Enabled(db, op)
    ensures id in Step(db, op).t.outbox
    ensures Step(db, op).t.outbox[id] == db.t.outbox[id]
            || match Attempted(op)
               case Some((target, c)) =>
                 target == id && Succeeds(db.t.outbox, id, c)
                 && Step(db, op).t.outbox[id] == Set(db.t.outbox[id], c)
               case None => false
  {
    hide Where, Set, Valid, RowFor, DeviceRegistry.Apply, EnqueueWellFormed, NotifyOutbox.Change.WellFormed, Recordable;
  }

  // The invariant of every run

  /** A claimed row is, field by field, the entry its claim returned: nobody has touched it since. */
  ghost predicate ClaimsAsIssued(db: Db) {
    forall id :: id in db.t.outbox ==>
      match db.t.outbox[id].claimToken
      case Some(token) => token in db.issued && db.issued[token] == db.t.outbox[id]
      case None => true
  }

  ghost predicate Inv(db: Db) {
    OutboxInv(db.t.outbox) && ClaimsAsIssued(db) && DeviceRegistry.Inv(db.t.devices)
  }

  lemma StepKeepsOutboxInv(db: Db, op: Op)
    requires OutboxInv(db.t.outbox) && Enabled(db, op)
    ensures OutboxInv(Step(db, op).t.outbox)
  {
    hide OutboxInv, Where, Set, Enqueued, Recordable, DeviceRegistry.Apply, NotifyOutbox.Change.WellFormed;
    match op
    case Enqueue(now, ev, dev, user, max, first, expires, newId) =>
      EnqueuedKeepsInv(db.t.outbox, DB.Owners(db.t.devices), db.matched, now, ev, dev, user, max, first, expires,
                       newId);
    case Update(id, c) => PerformedKeepsInv(db.t.outbox, id, c);
    case Record(id, c, d) => PerformedKeepsInv(db.t.outbox, id, c);
    case RecordUnauthorized(now, id, token, d, user, dev) =>
      PerformedKeepsInv(db.t.outbox, id, Change.DeadLetterClaimed(now, token));
    case _ =>
  }

  lemma StepKeepsDeviceInv(db: Db, op: Op)
    requires DeviceRegistry.Inv(db.t.devices) && Enabled(db, op)
    ensures DeviceRegistry.Inv(Step(db, op).t.devices) && DeviceRegistry.Persists(db.t.devices, Step(db, op).t.devices)
  {
    hide DeviceRegistry.Inv, Performed, Enqueued, Recordable, DeviceRegistry.Persists, DeviceRegistry.Registered,
         DeviceRegistry.Replaced;
    assert DeviceRegistry.Persists(db.t.devices, db.t.devices) by { SameDevicesPersist(db.t.devices); }
    match op
    case Device(o) =>
      DeviceRegistry.ApplyKeepsInv(db.t.devices, o);
      DeviceRegistry.ApplyPersists(db.t.devices, o);
    case RecordUnauthorized(now, id, token, d, user, dev) =>
      var o := DeviceRegistry.Op.Revoke(DB.Micros(now), user, dev);
      DeviceRegistry.ApplyKeepsInv(db.t.devices, o);
      DeviceRegistry.ApplyPersists(db.t.devices, o);
    case _ =>
  }

  lemma SameDevicesPersist(d: DeviceRegistry.Devices)
    ensures DeviceRegistry.Persists(d, d)
  {
  }

  /** A row a step adds is unclaimed; a step issues at most one token, and only to the row it claims. */
  lemma StepOnNewRow(db: Db, op: Op, id: int)
    requires id !in db.t.outbox && id in Step(db, op).t.outbox
    ensures op.Enqueue? && id == op.newId
    ensures Step(db, op).t.outbox[id] == NewEntry(id, op.now, op.eventId, op.deviceId, op.userId, op.maxAttempts,
                                                  op.first, op.expiresAt)
    ensures db.t.outbox.Keys < Step(db, op).t.outbox.Keys
  {
    hide Where, Set, RowFor, Recordable, DeviceRegistry.Apply, EnqueueWellFormed, NotifyOutbox.Change.WellFormed;
  }

  lemma StepOnIssued(db: Db, op: Op)
    ensures Step(db, op).issued ==
            match op
            case Update(id, c) =>
              if c.Claim? && Succeeds(db.t.outbox, id, c) then db.issued[c.token := Set(db.t.outbox[id], c)]
              else db.issued
            case _ => db.issued
  {
    hide Where, Set, Enqueued, Recorded, RecordedUnauthorized, DeviceRegistry.Apply;
  }

  lemma StepKeepsClaims(db: Db, op: Op)
    requires OutboxInv(db.t.outbox) && ClaimsAsIssued(db) && Enabled(db, op)
    ensures ClaimsAsIssued(Step(db, op))
  {
    hide Where, Set, Step, OutboxInv, Succeeds;
    var after := Step(db, op);
    StepOnIssued(db, op);
    forall id | id in after.t.outbox
      ensures match after.t.outbox[id].claimToken
              case Some(token) => token in after.issued && after.issued[token] == after.t.outbox[id]
              case None => true
    {
      if id in db.t.outbox {
        StepOnRow(db, op, id);
        if after.t.outbox[id] != db.t.outbox[id] {
          SuccessOf(db.t.outbox, id, Attempted(op).value.1);
        }
      } else {
        StepOnNewRow(db, op, id);
      }
    }
  }

  lemma SuccessOf(o: NotifyOutbox.Outbox, id: int, c: Change)
    requires Succeeds(o, id, c)
    ensures Where(o[id], c) && Set(o[id], c).claimToken == if c.Claim? then Some(c.token) else None
  {
    SuccessEndsClaim(o[id], c);
  }

  /** Whatever any caller does, the invariant survives. */
  lemma StepKeepsInv(db: Db, op: Op)
    requires Inv(db) && Enabled(db, op)
    ensures Inv(Step(db, op))
  {
    hide OutboxInv, ClaimsAsIssued, DeviceRegistry.Inv, Step, Enabled;
    StepKeepsOutboxInv(db, op);
    StepKeepsClaims(db, op);
    StepKeepsDeviceInv(db, op);
  }

  // Runs

  predicate Initial(db: Db) {
    db.t.outbox == map[] && db.t.deliveries == [] && db.issued == map[]
  }

  ghost predicate Follows(s: seq<Db>, ops: seq<Op>, n: nat)
    requires n < |ops| && |s| == |ops| + 1
  {
    Enabled(s[n], ops[n]) && s[n + 1] == Step(s[n], ops[n])
  }

  /** Any interleaving of any callers' steps, from empty outbox and audit tables. */
  ghost predicate IsRun(s: seq<Db>, ops: seq<Op>) {
    && |s| == |ops| + 1 && Initial(s[0]) && DeviceRegistry.Inv(s[0].t.devices)
    && forall n :: 0 <= n < |ops| ==> Follows(s, ops, n)
  }

  lemma {:induction false} RunInv(s: seq<Db>, ops: seq<Op>, n: nat)
    requires IsRun(s, ops) && n < |s|
    ensures Inv(s[n])
  {
    hide DeviceRegistry.Inv, Step, Enabled;
    if n > 0 {
      RunInv(s, ops, n - 1);
      assert Follows(s, ops, n - 1);
      StepKeepsInv(s[n - 1], ops[n - 1]);
    }
  }

  /** In every reachable state a pending row has an attempt left, and only pending rows have a due time or a claim. */
  lemma ReachableRows(s: seq<Db>, ops: seq<Op>, n: nat, id: int)
    requires IsRun(s, ops) && n < |s| && id in s[n].t.outbox
    ensures var e := s[n].t.outbox[id];
            && (e.state.Pending? ==> e.attemptCount < e.maxAttempts) && (e.state.Pending? <==> e.nextAttemptAt.Some?)
            && (e.claimToken.Some? ==> e.state.Pending?)
            && 0 <= e.attemptCount <= e.maxAttempts
  {
    hide IsRun, DeviceRegistry.Inv, ClaimsAsIssued;
    RunInv(s, ops, n);
  }
}
