/**
 The stores' methods and the protocol's steps: whatever a call leaves in the tables is the state before it or one step.
 */
module NotifyCalls {
  import opened Prelude
  import opened NotifyOutbox
  import opened NotifyDelivery
  import opened NotifyOutcome
  import opened NotifyProtocol
  import DeviceRegistry
  import D = NotifyDevices
  import DB = NotifyDatabase
  import DeviceStore = NotifyDeviceStore
  import OutboxStore = NotifyOutboxStore

  ghost predicate StepOrNothing(db: Db, op: Op, after: Db) {
    after == db || after == Step(db, op)
  }

  /** The single-row methods of the outbox store, claims included. */
  lemma OutboxCall(db: Db, id: int, c: Change, after: (Outbox, map<Token, Entry>), r: Result<Entry, NotifyOutbox.Error>)
    requires Answered((db.t.outbox, db.issued), OutboxStore.Effect(db.t.outbox, db.issued, id, c), after, r,
                      NotifyOutbox.Unavailable)
    ensures StepOrNothing(db, Op.Update(id, c), db.(t := db.t.(outbox := after.0), issued := after.1))
    ensures r.Ok? ==> db.(t := db.t.(outbox := after.0), issued := after.1) == Step(db, Op.Update(id, c))
  {
    hide Performed, OutboxStore.Issued;
  }

  lemma EnqueueCall(db: Db, now: Time, ev: EventId, dev: int, user: int, max: int, first: Time, expires: Time,
                    newId: int, after: Outbox, r: Result<Entry, NotifyOutbox.Error>)
    requires var spec := Enqueued(db.t.outbox, DB.Owners(db.t.devices), db.matched, now, ev, dev, user, max, first,
                                  expires, newId);
             Answered(db.t.outbox, spec, after, r, NotifyOutbox.Unavailable)
    ensures StepOrNothing(db, Op.Enqueue(now, ev, dev, user, max, first, expires, newId),
                          db.(t := db.t.(outbox := after)))
  {
    hide Enqueued;
  }

  /** The recorder's four plain outcomes. */
  lemma RecordCall(db: Db, id: int, c: Change, d: Delivery, after: Tables, r: Result<NotifyOutcome.Recording,
                   NotifyOutcome.Error>)
    requires AllOrNothing(db.t, Recorded(db.t, id, c, d), after, r)
    ensures StepOrNothing(db, Op.Record(id, c, d), db.(t := after))
    ensures r.Ok? ==> db.(t := after) == Step(db, Op.Record(id, c, d))
  {
    hide Recorded;
  }

  lemma UnauthorizedCall(db: Db, now: Time, id: int, token: Token, d: Delivery, user: int, dev: int, after: Tables,
                         r: Result<NotifyOutcome.Recording, NotifyOutcome.Error>)
    requires AllOrNothing(db.t, RecordedUnauthorized(db.t, now, id, token, d, user, dev), after, r)
    ensures StepOrNothing(db, Op.RecordUnauthorized(now, id, token, d, user, dev), db.(t := after))
    ensures r.Ok? ==> db.(t := after) == Step(db, Op.RecordUnauthorized(now, id, token, d, user, dev))
  {
    hide RecordedUnauthorized;
  }

  /** The table store refuses more than the registry does, but what it changes the registry would change alike. */
  lemma DeviceCalls(authority: D.Authority, users: set<int>, db: Db, now: Time, user: int, oldId: int,
                    sub: D.Subscription, platform: string, newId: int,
                    after: DeviceRegistry.Devices, r: Result<int, DeviceStore.Error>)
    ensures Answered(db.t.devices,
                     DeviceStore.RegisterOutcome(authority, users, db.t.devices, now, user, sub, platform, newId),
                     after, r, DeviceStore.Unavailable) ==>
              StepOrNothing(db,
                            Op.Device(DeviceRegistry.Op.Register(DB.Micros(now), user, D.BindingOf(sub, platform),
                                                                 newId)),
                            db.(t := db.t.(devices := after)))
    ensures Answered(db.t.devices,
                     DeviceStore.ReplaceOutcome(authority, db.t.devices, now, user, oldId, sub, platform, newId),
                     after, r, DeviceStore.Unavailable) ==>
              StepOrNothing(db,
                            Op.Device(DeviceRegistry.Op.Replace(DB.Micros(now), user, oldId, D.BindingOf(sub, platform),
                                                                newId)),
                            db.(t := db.t.(devices := after)))
    ensures Answered(db.t.devices, DeviceStore.RevokeOutcome(db.t.devices, now, user, oldId), after, r,
                     DeviceStore.Unavailable) ==>
              StepOrNothing(db, Op.Device(DeviceRegistry.Op.Revoke(DB.Micros(now), user, oldId)),
                            db.(t := db.t.(devices := after)))
  {
    hide DeviceRegistry.Registered, DeviceRegistry.Replaced, DeviceRegistry.Revoked, DeviceStore.Acceptable,
         DeviceStore.StoredEndpoint;
  }
}
