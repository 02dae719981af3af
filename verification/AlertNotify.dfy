/** The fan-out of a matched alert event to every active test device. */
module AlertNotify {
  import opened Prelude
  import opened NotifyOutbox
  import DB = NotifyDatabase
  import DeviceStore = NotifyDeviceStore
  import OutboxStore = NotifyOutboxStore
  import Protocol = NotifyProtocol
  import Fencing = NotifyFencing

  datatype Error = Input | NotMatched | Devices(cause: DeviceStore.Error)

  datatype Event = Event(eventId: EventId, matched: bool, expiresAt: Time)

  datatype DeviceResult = DeviceResult(deviceId: int, entry: Result<Entry, NotifyOutbox.Error>)

  /** Every row that was there before is still there, untouched. */
  ghost predicate Extends(before: Outbox, after: Outbox) {
    forall id :: id in before ==> id in after && after[id] == before[id]
  }

  /** Every new row is a fresh entry of this event, due at once, for a listed device that had none and for its owner. */
  ghost predicate OnlyNew(before: Outbox, after: Outbox, owners: map<int, int>, now: Time, ev: Event, devices: seq<int>,
                          maxAttempts: int) {
    forall id :: id in after && id !in before ==>
      var e := after[id];
      && e.deviceId in devices && e.deviceId in owners && RowFor(before, ev.eventId, e.deviceId).None?
      && e == Entry(id, ev.eventId, e.deviceId, owners[e.deviceId], Pending, 0, maxAttempts, Some(now), ev.expiresAt,
                    now, None)
  }

  /** No device but an active test device ever gets a new entry. */
  ghost predicate ForTestDevices(before: Outbox, after: Outbox, rows: map<int, DB.DeviceRow>) {
    forall id :: id in after && id !in before ==>
      var d := after[id].deviceId;
      d in rows && rows[d].testMode && rows[d].revokedAt.None?
  }

  /** Every active test device has its result. */
  ghost predicate ServesTestDevices(rows: map<int, DB.DeviceRow>, results: seq<DeviceResult>) {
    forall d :: d in rows && rows[d].testMode && rows[d].revokedAt.None? ==>
      exists k :: 0 <= k < |results| && results[k].deviceId == d
  }

  /**
   What the outbox asks of an event, whatever the device: a well-formed id, an expiry to come, and a matched row of its
   own.
   */
  predicate Acceptable(matched: set<EventId>, now: Time, ev: Event) {
    ValidEventId(ev.eventId) && ev.expiresAt > now && ev.eventId in matched
  }

  /**
   A device's result: unless the database was unreachable, the row the table now holds for it if the event is
   acceptable, and an input error if it is not. A listed device is never refused for its owner.
   */
  predicate Delivered(after: Outbox, event: EventId, device: int, r: DeviceResult, acceptable: bool) {
    r.deviceId == device &&
    match r.entry
    case Ok(e) => acceptable && e.id in after && after[e.id] == e && ForPair(e, event, device)
    case Err(e) => e == Unavailable || (e == NotifyOutbox.Error.Input && !acceptable)
  }

  lemma RowForOfOld(before: Outbox, mid: Outbox, event: EventId, device: int)
    requires Extends(before, mid) && RowFor(mid, event, device).None?
    ensures RowFor(before, event, device).None?
  {
    forall id | id in before ensures !ForPair(before[id], event, device) {
      assert !ForPair(mid[id], event, device);
    }
  }

  /** One more device: what held of the table so far still holds of it after that device's Enqueue. */
  lemma OneMore(before: Outbox, mid: Outbox, after: Outbox, answer: Result<Entry, NotifyOutbox.Error>,
                owners: map<int, int>, matched: set<EventId>,
                now: Time, ev: Event, device: int, user: int, maxAttempts: int, newId: int, ids: seq<int>)
    requires OutboxInv(mid) && FreshId(mid, newId) && device in ids
    requires !IsZero(now) && maxAttempts > 0 && device > 0 && user > 0 && device in owners && owners[device] == user
    requires var spec := Enqueued(mid, owners, matched, now, ev.eventId, device, user, maxAttempts, now, ev.expiresAt,
                                  newId);
             Answered(mid, spec, after, answer, Unavailable)
    requires Extends(before, mid) && OnlyNew(before, mid, owners, now, ev, ids, maxAttempts)
    ensures Extends(mid, after) && Extends(before, after)
    ensures OnlyNew(before, after, owners, now, ev, ids, maxAttempts)
    ensures Delivered(after, ev.eventId, device, DeviceResult(device, answer), Acceptable(matched, now, ev))
    ensures !Acceptable(matched, now, ev) ==> after == mid
  {
    hide OutboxInv, RowFor, ValidEventId;
    EnqueuedEffect(mid, owners, matched, now, ev.eventId, device, user, maxAttempts, now, ev.expiresAt, newId);
    if RowFor(mid, ev.eventId, device).None? {
      RowForOfOld(before, mid, ev.eventId, device);
    }
  }

  /** One result for each listed device, in order. */
  ghost predicate AllDelivered(after: Outbox, event: EventId, ids: seq<int>, results: seq<DeviceResult>,
                               acceptable: bool) {
    |results| == |ids| && forall k :: 0 <= k < |ids| ==> Delivered(after, event, ids[k], results[k], acceptable)
  }

  predicate Got(results: seq<DeviceResult>, k: nat) {
    k < |results| && results[k].entry.Ok?
  }

  /** A device that got its row has exactly that row in every later state, whatever became of the row since. */
  lemma RowStays(s: seq<Protocol.Db>, ops: seq<Protocol.Op>, i: nat, j: nat, event: EventId, ids: seq<int>,
                 results: seq<DeviceResult>, acceptable: bool, k: nat)
    requires Protocol.IsRun(s, ops) && i <= j < |s| && AllDelivered(s[i].t.outbox, event, ids, results, acceptable)
    requires k < |ids| && Got(results, k)
    ensures RowFor(s[j].t.outbox, event, ids[k]) == Some(results[k].entry.value.id)
  {
    hide Protocol.IsRun, Protocol.ClaimsAsIssued, RowFor, RowInv, UniquePairs, DB.Owners;
    var id := results[k].entry.value.id;
    assert Delivered(s[i].t.outbox, event, ids[k], results[k], acceptable);
    Fencing.RowsPersist(s, ops, i, j, id);
    Protocol.RunInv(s, ops, j);
    RowForIsUnique(s[j].t.outbox, id);
  }

  /**
   Repeating a fan-out is always safe: a later enqueue of the event for a device that got its row changes nothing, at
   whatever point of whatever interleaving it comes.
   */
  lemma EnqueueAgain(s: seq<Protocol.Db>, ops: seq<Protocol.Op>, i: nat, j: nat, event: EventId, ids: seq<int>,
                     results: seq<DeviceResult>, acceptable: bool, k: nat)
    requires Protocol.IsRun(s, ops) && i <= j < |ops| && AllDelivered(s[i].t.outbox, event, ids, results, acceptable)
    requires k < |ids| && Got(results, k) && ops[j].Enqueue? && ops[j].eventId == event && ops[j].deviceId == ids[k]
    ensures s[j + 1] == s[j]
  {
    hide Protocol.Follows, Protocol.Step, RowFor;
    assert Delivered(s[i].t.outbox, event, ids[k], results[k], acceptable);
    Fencing.NeverDuplicated(s, ops, i, j, results[k].entry.value.id);
  }

  /**
   A whole fan-out repeated in any later state adds rows only for devices that got none the first time, and gives the
   others the row they got then; if all got theirs, it leaves the table as it is.
   */
  lemma FanOutAgain(s: seq<Protocol.Db>, ops: seq<Protocol.Op>, i: nat, j: nat, ev: Event,
                    ids: seq<int>, results: seq<DeviceResult>, acceptable: bool, owners: map<int, int>, now: Time,
                    after: Outbox, again: seq<int>, answers: seq<DeviceResult>, acceptableAgain: bool, maxAttempts: int)
    requires Protocol.IsRun(s, ops) && i <= j < |s| && AllDelivered(s[i].t.outbox, ev.eventId, ids, results, acceptable)
    requires OutboxInv(after) && Extends(s[j].t.outbox, after)
             && OnlyNew(s[j].t.outbox, after, owners, now, ev, again, maxAttempts)
    requires AllDelivered(after, ev.eventId, again, answers, acceptableAgain)
    ensures forall id, k :: id in after && id !in s[j].t.outbox && 0 <= k < |ids| && ids[k] == after[id].deviceId ==>
                              !Got(results, k)
    ensures forall k, l :: 0 <= k < |ids| && 0 <= l < |again| && again[l] == ids[k] ==>
                             Got(results, k) && Got(answers, l) ==>
                               answers[l].entry.value.id == results[k].entry.value.id
    ensures (forall k :: 0 <= k < |ids| ==> Got(results, k)) && (forall l :: 0 <= l < |again| ==> again[l] in ids) ==>
              Extends(after, s[j].t.outbox)
  {
    hide Protocol.IsRun, RowFor, Delivered, RowInv;
    forall id, k | id in after && id !in s[j].t.outbox && 0 <= k < |ids| && ids[k] == after[id].deviceId
      ensures !Got(results, k)
    {
      if Got(results, k) {
        RowStays(s, ops, i, j, ev.eventId, ids, results, acceptable, k);
      }
    }
    forall k, l | 0 <= k < |ids| && 0 <= l < |again| && again[l] == ids[k] && Got(results, k) && Got(answers, l)
      ensures answers[l].entry.value.id == results[k].entry.value.id
    {
      RowStays(s, ops, i, j, ev.eventId, ids, results, acceptable, k);
      SameRow(s[j].t.outbox, after, ev.eventId, ids[k], answers[l], acceptableAgain);
    }
  }

  lemma SameRow(before: Outbox, after: Outbox, event: EventId, device: int, r: DeviceResult, acceptable: bool)
    requires OutboxInv(after) && Extends(before, after) && RowFor(before, event, device).Some?
    requires r.entry.Ok? && Delivered(after, event, device, r, acceptable)
    ensures r.entry.value.id == RowFor(before, event, device).value
  {
    hide RowFor, RowInv;
    var id := RowFor(before, event, device).value;
    assert ForPair(after[id], event, device);
  }

  lemma NothingNew(o: Outbox, owners: map<int, int>, now: Time, ev: Event, ids: seq<int>, maxAttempts: int)
    ensures Extends(o, o) && OnlyNew(o, o, owners, now, ev, ids, maxAttempts)
  {
  }

  lemma DeliveredLater(mid: Outbox, after: Outbox, event: EventId, device: int, r: DeviceResult, acceptable: bool)
    requires Extends(mid, after) && Delivered(mid, event, device, r, acceptable)
    ensures Delivered(after, event, device, r, acceptable)
  {
  }

  class Service {
    const outbox: OutboxStore.Postgres
    const devices: DeviceStore.Postgres
    const maxAttempts: int

    constructor (outbox: OutboxStore.Postgres, devices: DeviceStore.Postgres, maxAttempts: int)
      requires outbox.db == devices.db && maxAttempts > 0
      ensures this.outbox == outbox && this.devices == devices && this.maxAttempts == maxAttempts
    {
      this.outbox, this.devices, this.maxAttempts := outbox, devices, maxAttempts;
    }

    /** `ids` is the server's answer to the query for active test devices. */
    method EnqueueMatchedEvent(now: Time, ev: Event, ids: seq<int>) returns (r: Result<seq<DeviceResult>, Error>)
      requires outbox.db == devices.db && maxAttempts > 0 && outbox.Valid() && devices.Valid()
      requires DeviceStore.TestRows(devices.db.devices, ids)
      modifies outbox.db`outbox, outbox.db`outboxSeq
      ensures outbox.Valid()
      ensures Extends(old(outbox.db.outbox), outbox.db.outbox)
      ensures OnlyNew(old(outbox.db.outbox), outbox.db.outbox, DB.Owners(DB.AsDevices(outbox.db.devices)), now, ev, ids,
                      maxAttempts)
      ensures match r
              case Ok(results) =>
                && !IsZero(now) && ev.matched
                && AllDelivered(outbox.db.outbox, ev.eventId, ids, results, Acceptable(outbox.db.matched, now, ev))
                && (Acceptable(outbox.db.matched, now, ev) || outbox.db.outbox == old(outbox.db.outbox))
              case Err(e) =>
                && outbox.db.outbox == old(outbox.db.outbox)
                && e == (if IsZero(now) then Error.Input else if !ev.matched then NotMatched
                         else Devices(DeviceStore.Unavailable))
      ensures ForTestDevices(old(outbox.db.outbox), outbox.db.outbox, devices.db.devices)
      ensures r.Ok? ==> ServesTestDevices(devices.db.devices, r.value)
    {
      hide OutboxInv, Enqueued, OnlyNew, Extends, Delivered, Answered, Acceptable,
           DeviceStore.AsRegistration, DeviceStore.ValidRow, DeviceStore.Sound;
      ghost var owners := DB.Owners(DB.AsDevices(outbox.db.devices));
      NothingNew(outbox.db.outbox, owners, now, ev, ids, maxAttempts);
      if IsZero(now) {
        return Err(Error.Input);
      }
      if !ev.matched {
        return Err(NotMatched);
      }
      var listed := devices.ListActiveTestMode(ids);
      if listed.Err? {
        return Err(Devices(listed.error));
      }
      var results: seq<DeviceResult> := [];
      ghost var before, acceptable := outbox.db.outbox, Acceptable(outbox.db.matched, now, ev);
      for n := 0 to |listed.value|
        invariant outbox.Valid() && Extends(before, outbox.db.outbox)
        invariant OnlyNew(before, outbox.db.outbox, owners, now, ev, ids, maxAttempts)
        invariant acceptable || outbox.db.outbox == before
        invariant |results| == n
        invariant forall k :: 0 <= k < n ==> Delivered(outbox.db.outbox, ev.eventId, ids[k], results[k], acceptable)
      {
        var reg := listed.value[n];
        ghost var mid, newId := outbox.db.outbox, outbox.db.outboxSeq + 1;
        OwnedAsListed(devices.authority, outbox.db.users, outbox.db.devices, outbox.db.deviceSeq, reg.id);
        var entry := outbox.Enqueue(now, ev.eventId, reg.id, reg.userId, maxAttempts, now, ev.expiresAt);
        OneMore(before, mid, outbox.db.outbox, entry, owners, outbox.db.matched, now, ev, reg.id, reg.userId,
                maxAttempts, newId, ids);
        forall k | 0 <= k < n ensures Delivered(outbox.db.outbox, ev.eventId, ids[k], results[k], acceptable) {
          DeliveredLater(mid, outbox.db.outbox, ev.eventId, ids[k], results[k], acceptable);
        }
        results := results + [DeviceResult(reg.id, entry)];
      }
      OnlyTestDevices(before, outbox.db.outbox, owners, now, ev, ids, maxAttempts, outbox.db.devices);
      assert AllDelivered(outbox.db.outbox, ev.eventId, ids, results, acceptable);
      AllTestDevices(outbox.db.outbox, ev.eventId, ids, results, acceptable, outbox.db.devices);
      return Ok(results);
    }
  }

  lemma OnlyTestDevices(before: Outbox, after: Outbox, owners: map<int, int>, now: Time, ev: Event, ids: seq<int>,
                        maxAttempts: int, rows: map<int, DB.DeviceRow>)
    requires DeviceStore.TestRows(rows, ids) && OnlyNew(before, after, owners, now, ev, ids, maxAttempts)
    ensures ForTestDevices(before, after, rows)
  {
  }

  lemma AllTestDevices(after: Outbox, event: EventId, ids: seq<int>, results: seq<DeviceResult>, acceptable: bool,
                       rows: map<int, DB.DeviceRow>)
    requires DeviceStore.TestRows(rows, ids) && AllDelivered(after, event, ids, results, acceptable)
    ensures ServesTestDevices(rows, results)
  {
    forall d | d in rows && rows[d].testMode && rows[d].revokedAt.None?
      ensures exists k :: 0 <= k < |results| && results[k].deviceId == d
    {
      assert d in ids;
      var k :| 0 <= k < |ids| && ids[k] == d;
      assert Delivered(after, event, ids[k], results[k], acceptable);
    }
  }

  /** A stored device has a valid id, and the foreign key will find it with the owner its row names. */
  lemma OwnedAsListed(authority: DeviceStore.D.Authority, users: set<int>, rows: map<int, DB.DeviceRow>, sequence: int,
                      id: int)
    requires DeviceStore.Sound(authority, users, rows, sequence) && id in rows
    ensures id > 0 && rows[id].userId > 0
    ensures var owners := DB.Owners(DB.AsDevices(rows)); id in owners && owners[id] == rows[id].userId
  {
    DB.ViewAt(rows, id);
    assert id in DB.AsDevices(rows);
  }
}
