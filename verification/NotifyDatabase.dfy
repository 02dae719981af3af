/**
 The notification tables as one mutable database that several stores share. Any statement may find the
 database unreachable, and the acknowledgement of a statement or a commit may get lost after it took effect.
 */
module NotifyDatabase {
  import opened Prelude
  import DeviceRegistry
  import opened NotifyOutbox
  import opened NotifyDelivery

  datatype DeviceRow = DeviceRow(userId: int, endpoint: string, p256dh: seq<Byte>, auth: seq<Byte>,
                                 platform: Option<string>, createdAt: Time, updatedAt: Time, revokedAt: Option<Time>,
                                 supersededBy: Option<int>, testMode: bool)

  /** What a timestamp column keeps of a time: whole microseconds. */
  function Micros(t: Time): Time {
    t - t % 1000
  }

  /** A time is stored as the start of the microsecond it lies in. */
  lemma MicrosExactly(t: Time)
    ensures Micros(t) <= t < Micros(t) + 1000 && Micros(t) % 1000 == 0
  {
  }

  function PlatformText(p: Option<string>): string {
    match p
    case Some(text) => text
    case None => ""
  }

  function LinkId(link: Option<int>): int {
    match link
    case Some(id) => id
    case None => 0
  }

  function AsDevice(r: DeviceRow): DeviceRegistry.Device {
    DeviceRegistry.Device(r.userId, r.endpoint, r.p256dh, r.auth, PlatformText(r.platform), r.createdAt, r.revokedAt,
                          LinkId(r.supersededBy), r.testMode)
  }

  function AsDevices(rows: map<int, DeviceRow>): (d: DeviceRegistry.Devices)
    ensures d.Keys == rows.Keys
  {
    map id | id in rows :: AsDevice(rows[id])
  }

  lemma ViewOfUpdate(rows: map<int, DeviceRow>, id: int, r: DeviceRow)
    ensures AsDevices(rows[id := r]) == AsDevices(rows)[id := AsDevice(r)]
  {
  }

  lemma ViewAt(rows: map<int, DeviceRow>, id: int)
    requires id in rows
    ensures AsDevices(rows)[id] == AsDevice(rows[id])
  {
  }

  /** Who owns each device, active or not: the target of the outbox's composite foreign key. */
  function Owners(d: DeviceRegistry.Devices): (o: map<int, int>)
    ensures o.Keys == d.Keys
  {
    map id | id in d :: d[id].userId
  }

  class Database {
    var users: set<int>
    var devices: map<int, DeviceRow>
    var outbox: Outbox
    var deliveries: seq<Delivery>
    /** The alert events in the matched state. */
    var matched: set<EventId>
    /** The identity sequences; they run on even when the row they numbered is rolled back. */
    var deviceSeq: int
    var outboxSeq: int
    /** Every claim token ever handed out, with the entry its claim returned. */
    ghost var issued: map<Token, Entry>

    constructor ()
      ensures users == {} && devices == map[] && outbox == map[] && deliveries == [] && matched == {}
      ensures deviceSeq == 0 && outboxSeq == 0 && issued == map[]
    {
      users, devices, outbox, deliveries, matched := {}, map[], map[], [], {};
      deviceSeq, outboxSeq, issued := 0, 0, map[];
    }

    /** Sends one message to the server and hears whether it was received, or its answer arrived. */
    method Reach() returns (up: bool)
    {
      up := *;
    }
  }
}
