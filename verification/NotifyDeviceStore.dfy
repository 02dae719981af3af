/**
 The table-backed registration store. Each method is proved against the same registry operations as the in-memory
 store, up to the id the sequence hands out, the database being reachable, and the checks only the table makes.
 */
module NotifyDeviceStore {
  import opened Prelude
  import Base64
  import opened DeviceRegistry
  import D = NotifyDevices
  import DB = NotifyDatabase

  datatype Error = Input | Forbidden | NotFound | Unavailable

  // Reading a row back

  datatype ScanError = Corrupt

  function AsRegistration(id: int, r: DB.DeviceRow): (reg: D.Registration)
    ensures reg.id == id && reg.userId == r.userId
  {
    D.Registration(id, r.userId,
                   D.Subscription(r.endpoint,
                                  D.Keys(Base64.Encode(Base64.Url, r.p256dh), Base64.Encode(Base64.Url, r.auth))),
                   DB.PlatformText(r.platform), r.createdAt, r.updatedAt, r.revokedAt, DB.LinkId(r.supersededBy),
                   r.testMode)
  }

  predicate ValidSubscription(authority: D.Authority, sub: D.Subscription) {
    && D.ValidEndpoint(authority, sub.endpoint)
    && D.ValidKey(sub.keys.p256dh, D.P256DH_DECODED_LEN) && D.ValidKey(sub.keys.auth, D.AUTH_DECODED_LEN)
  }

  /** `scanRegistration`: the stored bytes are encoded again and the result validated like a fresh subscription. */
  function Scan(authority: D.Authority, id: int, r: DB.DeviceRow): Result<D.Registration, ScanError> {
    if ValidSubscription(authority, AsRegistration(id, r).subscription) then Ok(AsRegistration(id, r)) else Err(Corrupt)
  }

  predicate StoredEndpoint(endpoint: string) {
    |endpoint| >= 8 && endpoint[..8] == "https://"
  }

  /** What every row satisfies: the column checks, and an endpoint the URL parser once accepted. */
  predicate ValidRow(authority: D.Authority, r: DB.DeviceRow) {
    && StoredEndpoint(r.endpoint) && D.ValidEndpoint(authority, r.endpoint)
    && |r.p256dh| == D.P256DH_DECODED_LEN && |r.auth| == D.AUTH_DECODED_LEN
    && r.userId > 0 && r.supersededBy != Some(0)
  }

  lemma EncodedKeyDecodes(b: seq<Byte>)
    ensures D.DecodeB64Url(Base64.Encode(Base64.Url, b)) == Some(b)
  {
    hide Base64.Encode, Base64.DecodeRaw, Base64.DecodePadded;
    Base64.RoundTrip(Base64.Url, b);
  }

  /** The corruption error is unreachable, and what is read back is the same device the memory store would hold. */
  lemma ScanNeverCorrupt(authority: D.Authority, id: int, r: DB.DeviceRow)
    requires ValidRow(authority, r)
    ensures Scan(authority, id, r) == Ok(AsRegistration(id, r))
    ensures D.AsDevice(AsRegistration(id, r)) == DB.AsDevice(r) && AsRegistration(id, r).updatedAt == r.updatedAt
  {
    hide Base64.Encode, D.DecodeB64Url, D.ValidEndpoint;
    EncodedKeyDecodes(r.p256dh);
    EncodedKeyDecodes(r.auth);
  }

  function PlatformColumn(platform: string): Option<string> {
    if platform == "" then None else Some(platform)
  }

  function NewRow(user: int, sub: D.Subscription, platform: string, now: Time): DB.DeviceRow {
    DB.DeviceRow(user, sub.endpoint, D.KeyBytes(sub.keys.p256dh), D.KeyBytes(sub.keys.auth),
                 PlatformColumn(platform), now, now, None, None, false)
  }

  /** `stamp` is what the trigger on `updated_at` writes. */
  function Rewritten(r: DB.DeviceRow, sub: D.Subscription, platform: string, stamp: Time): DB.DeviceRow {
    r.(p256dh := D.KeyBytes(sub.keys.p256dh), auth := D.KeyBytes(sub.keys.auth),
       platform := PlatformColumn(platform), updatedAt := stamp)
  }

  lemma ViewOfNewRow(authority: D.Authority, user: int, sub: D.Subscription, platform: string, now: Time)
    requires D.Complaint(authority, user, sub, platform).None? && StoredEndpoint(sub.endpoint)
    ensures ValidRow(authority, NewRow(user, sub, platform, now)) && NewRow(user, sub, platform, now).userId == user
    ensures DB.AsDevice(NewRow(user, sub, platform, now)) == Created(user, D.BindingOf(sub, platform), now)
  {
    hide D.DecodeB64Url, D.ValidEndpoint, D.ValidPlatform;
  }

  lemma ViewOfRewritten(authority: D.Authority, r: DB.DeviceRow, user: int, sub: D.Subscription, platform: string,
                        stamp: Time)
    requires D.Complaint(authority, user, sub, platform).None? && ValidRow(authority, r) && r.endpoint == sub.endpoint
    ensures ValidRow(authority, Rewritten(r, sub, platform, stamp))
    ensures DB.AsDevice(Rewritten(r, sub, platform, stamp)) == Rebound(DB.AsDevice(r), D.BindingOf(sub, platform))
  {
    hide D.DecodeB64Url, D.ValidEndpoint, D.ValidPlatform;
  }

  // The operations on the registry's level

  /** Everything both tables' writers check before the first statement. */
  predicate Acceptable(authority: D.Authority, now: Time, user: int, sub: D.Subscription, platform: string) {
    !IsZero(now) && D.Complaint(authority, user, sub, platform).None?
  }

  function Refused(r: Refusal): Error {
    if r.NoSuchDevice? then NotFound else Forbidden
  }

  function Lift(outcome: (Devices, Result<int, Refusal>)): (Devices, Result<int, Error>) {
    match outcome.1
    case Ok(id) => (outcome.0, Ok(id))
    case Err(e) => (outcome.0, Err(Refused(e)))
  }

  /**
   An INSERT checks the endpoint column before it looks for a conflicting row, and the user's foreign key only
   for a row that is really inserted.
   */
  ghost function RegisterOutcome(authority: D.Authority, users: set<int>, d: Devices, now: Time, user: int,
                                 sub: D.Subscription, platform: string, newId: int): (Devices, Result<int, Error>)
  {
    if !Acceptable(authority, now, user, sub, platform) then (d, Err(Input))
    else if !StoredEndpoint(sub.endpoint) then (d, Err(Input))
    else if Holder(d, sub.endpoint).None? && user !in users then (d, Err(Input))
    else Lift(Registered(d, DB.Micros(now), user, D.BindingOf(sub, platform), newId))
  }

  ghost function ReplaceOutcome(authority: D.Authority, d: Devices, now: Time, user: int, oldId: int,
                                sub: D.Subscription, platform: string, newId: int): (Devices, Result<int, Error>)
  {
    if oldId <= 0 || !Acceptable(authority, now, user, sub, platform) then (d, Err(Input))
    else
      var outcome := Replaced(d, DB.Micros(now), user, oldId, D.BindingOf(sub, platform), newId);
      if outcome.1 == Ok(newId) && !StoredEndpoint(sub.endpoint) then (d, Err(Input))
      else Lift(outcome)
  }

  function RevokeOutcome(d: Devices, now: Time, user: int, id: int): (Devices, Result<int, Error>) {
    if user <= 0 || id <= 0 || IsZero(now) then (d, Err(Input)) else Lift(Revoked(d, DB.Micros(now), user, id))
  }

  function IdOf(r: Result<D.Registration, Error>): Result<int, Error> {
    match r
    case Ok(reg) => Ok(reg.id)
    case Err(e) => Err(e)
  }

  // Listing

  predicate Newer(a: DB.DeviceRow, i: int, b: DB.DeviceRow, j: int) {
    a.createdAt > b.createdAt || (a.createdAt == b.createdAt && i > j)
  }

  /** ORDER BY created_at DESC, id DESC. */
  ghost predicate NewestFirst(rows: map<int, DB.DeviceRow>, ids: seq<int>) {
    && (forall k :: 0 <= k < |ids| ==> ids[k] in rows)
    && forall k, l :: 0 <= k < l < |ids| ==> Newer(rows[ids[k]], ids[k], rows[ids[l]], ids[l])
  }

  predicate ActiveOf(r: DB.DeviceRow, user: int) {
    r.userId == user && r.revokedAt.None?
  }

  predicate ActiveTest(r: DB.DeviceRow) {
    r.revokedAt.None? && r.testMode
  }

  /** The only answer a server can give to `ListActive`'s query: the matching ids in order. */
  ghost predicate ActiveRows(rows: map<int, DB.DeviceRow>, user: int, ids: seq<int>) {
    NewestFirst(rows, ids) && forall id :: id in ids <==> id in rows && ActiveOf(rows[id], user)
  }

  ghost predicate TestRows(rows: map<int, DB.DeviceRow>, ids: seq<int>) {
    NewestFirst(rows, ids) && forall id :: id in ids <==> id in rows && ActiveTest(rows[id])
  }

  function GetOutcome(rows: map<int, DB.DeviceRow>, id: int): Result<Option<D.Registration>, Error> {
    if id <= 0 then Err(Input) else if id in rows then Ok(Some(AsRegistration(id, rows[id]))) else Ok(None)
  }

  /** The rows of a query's answer, read back in its order. */
  function Reread(rows: map<int, DB.DeviceRow>, ids: seq<int>): (out: seq<D.Registration>)
    requires forall k :: 0 <= k < |ids| ==> ids[k] in rows
    ensures |out| == |ids| && forall k :: 0 <= k < |ids| ==> out[k] == AsRegistration(ids[k], rows[ids[k]])
  {
    seq(|ids|, k requires 0 <= k < |ids| => AsRegistration(ids[k], rows[ids[k]]))
  }

  /** No registration is older than the one behind it; of two equally old the one with the higher id comes first. */
  ghost predicate LatestFirst(out: seq<D.Registration>) {
    forall k, l :: 0 <= k < l < |out| ==>
      out[l].createdAt < out[k].createdAt || (out[l].createdAt == out[k].createdAt && out[l].id < out[k].id)
  }

  lemma RereadLatestFirst(rows: map<int, DB.DeviceRow>, ids: seq<int>)
    requires NewestFirst(rows, ids)
    ensures LatestFirst(Reread(rows, ids))
  {
  }

  function ListOutcome(rows: map<int, DB.DeviceRow>, user: int, ids: seq<int>): Result<seq<D.Registration>, Error>
    requires forall k :: 0 <= k < |ids| ==> ids[k] in rows
  {
    if user <= 0 then Err(Input) else Ok(Reread(rows, ids))
  }

  /** The order is total, so two sorted lists of the same rows are the same list. */
  lemma {:induction false} OrderIsTotal(rows: map<int, DB.DeviceRow>, a: seq<int>, b: seq<int>)
    requires NewestFirst(rows, a) && NewestFirst(rows, b)
    requires forall id :: id in a <==> id in b
    ensures a == b
  {
    if b != [] {
      var y := b[0];
      assert y in b && y in a && a != [];
    }
    if a != [] {
      var x := a[0];
      assert x in a && x in b;
      var y := b[0];
      assert y in b && y in a;
      HeadIsOnce(rows, a, x);
      HeadIsOnce(rows, b, y);
      OrderIsTotal(rows, a[1..], b[1..]);
      assert a == [x] + a[1..] && b == [y] + b[1..];
    }
  }

  lemma HeadIsOnce(rows: map<int, DB.DeviceRow>, a: seq<int>, x: int)
    requires NewestFirst(rows, a) && a != [] && x == a[0]
    ensures forall id :: id in a[1..] <==> id in a && id != x
    ensures forall id :: id in a && id != x ==> Newer(rows[x], x, rows[id], id)
  {
    assert a == [x] + a[1..];
  }

  function WithoutId(outcome: (Devices, Result<int, Error>)): (Devices, Result<(), Error>) {
    (outcome.0, match outcome.1 case Ok(_) => Ok(()) case Err(e) => Err(e))
  }

  lemma ActiveRowHasNoLink(authority: D.Authority, rows: map<int, DB.DeviceRow>, id: int)
    requires Inv(DB.AsDevices(rows)) && id in rows && ValidRow(authority, rows[id]) && rows[id].revokedAt.None?
    ensures rows[id].supersededBy.None?
  {
    ActiveHasNoSuccessor(DB.AsDevices(rows), id);
  }

  /**
   What the store relies on: the sequence is ahead of every id, rows are valid and owned, and the registry's invariant.
   */
  ghost predicate Sound(authority: D.Authority, users: set<int>, rows: map<int, DB.DeviceRow>, sequence: int) {
    RowsSound(authority, users, rows, sequence) && Inv(DB.AsDevices(rows))
  }

  ghost predicate RowsSound(authority: D.Authority, users: set<int>, rows: map<int, DB.DeviceRow>, sequence: int) {
    sequence >= 0 && forall id :: id in rows ==>
      id <= sequence && ValidRow(authority, rows[id]) && rows[id].userId in users
  }

  lemma RowsSoundAfter(authority: D.Authority, users: set<int>, rows: map<int, DB.DeviceRow>, sequence: int,
                       later: int, id: int, row: DB.DeviceRow)
    requires RowsSound(authority, users, rows, sequence) && sequence <= later
    requires id <= later && ValidRow(authority, row) && row.userId in users
    ensures RowsSound(authority, users, rows[id := row], later) && RowsSound(authority, users, rows, later)
  {
    hide ValidRow;
  }

  class Postgres {
    const authority: D.Authority
    const db: DB.Database

    constructor (authority: D.Authority, db: DB.Database)
      ensures this.authority == authority && this.db == db
    {
      this.authority, this.db := authority, db;
    }

    ghost function View(): Devices
      reads db
    {
      DB.AsDevices(db.devices)
    }

    ghost predicate Valid()
      reads db
    {
      Sound(authority, db.users, db.devices, db.deviceSeq)
    }

    /** The active row with this endpoint: a lookup in the partial unique index. */
    method ActiveByEndpoint(endpoint: string) returns (r: Option<int>)
      requires Valid()
      ensures r == Holder(View(), endpoint)
    {
      if exists id :: id in db.devices && db.devices[id].revokedAt.None? && db.devices[id].endpoint == endpoint {
        var id :| id in db.devices && db.devices[id].revokedAt.None? && db.devices[id].endpoint == endpoint;
        HolderIsUnique(View(), endpoint, id);
        return Some(id);
      }
      assert forall id :: !Holds(View(), id, endpoint);
      return None;
    }

    /** One row written back, and read again as the caller will see it. */
    method Write(id: int, row: DB.DeviceRow) returns (r: D.Registration)
      requires ValidRow(authority, row)
      modifies db`devices
      ensures db.devices == old(db.devices)[id := row]
      ensures r == AsRegistration(id, row) && r.id == id
      ensures View() == old(View())[id := DB.AsDevice(row)]
    {
      DB.ViewOfUpdate(db.devices, id, row);
      db.devices := db.devices[id := row];
      ScanNeverCorrupt(authority, id, row);
      match Scan(authority, id, row) {
        case Ok(reg) => r := reg;
      }
    }

    /** A single INSERT ... ON CONFLICT DO UPDATE. */
    method Register(now: Time, user: int, sub: D.Subscription, platform: string)
      returns (r: Result<D.Registration, Error>)
      requires Valid()
      modifies db`devices, db`deviceSeq
      ensures Valid()
      ensures Answered(old(View()), RegisterOutcome(authority, db.users, old(View()), now, user, sub, platform,
                                                    old(db.deviceSeq) + 1),
                       View(), IdOf(r), Unavailable)
      ensures r.Ok? ==> r.value.id in db.devices && r.value == AsRegistration(r.value.id, db.devices[r.value.id])
    {
      hide Holder, Inv, D.Complaint, D.BindingOf, ValidRow, NewRow, Rewritten, AsRegistration;
      if IsZero(now) || D.Complaint(authority, user, sub, platform).Some? {
        return Err(Input);
      }
      var up := db.Reach();
      if !up {
        return Err(Unavailable);
      }
      ghost var newId := db.deviceSeq + 1;
      ApplyKeepsInv(View(), Op.Register(DB.Micros(now), user, D.BindingOf(sub, platform), newId));
      db.deviceSeq := db.deviceSeq + 1;
      if !StoredEndpoint(sub.endpoint) {
        return Err(Input);
      }
      var holder := ActiveByEndpoint(sub.endpoint);
      var reg;
      if holder.Some? {
        var row := db.devices[holder.value];
        if row.userId != user {
          return Err(Forbidden);
        }
        var stamp: Time := *;
        ViewOfRewritten(authority, row, user, sub, platform, stamp);
        reg := Write(holder.value, Rewritten(row, sub, platform, stamp));
      } else {
        if user !in db.users {
          return Err(Input);
        }
        ViewOfNewRow(authority, user, sub, platform, DB.Micros(now));
        reg := Write(db.deviceSeq, NewRow(user, sub, platform, DB.Micros(now)));
      }
      var heard := db.Reach();
      return if heard then Ok(reg) else Err(Unavailable);
    }

    /** Ends a transaction that only wrote devices: it may fail to commit, or commit without our hearing of it. */
    method Commit(saved: map<int, DB.DeviceRow>) returns (ok: bool)
      modifies db`devices
      ensures if ok then db.devices == old(db.devices) else db.devices in {saved, old(db.devices)}
    {
      var committed := db.Reach();
      if !committed {
        db.devices := saved;
        return false;
      }
      ok := db.Reach();
    }

    /** One transaction; every error path leaves the table as it was. */
    method Replace(now: Time, user: int, oldId: int, sub: D.Subscription,
                   platform: string) returns (r: Result<D.Registration, Error>)
      requires Valid()
      modifies db`devices, db`deviceSeq
      ensures Valid()
      ensures Answered(old(View()), ReplaceOutcome(authority, old(View()), now, user, oldId, sub, platform,
                                                   old(db.deviceSeq) + 1),
                       View(), IdOf(r), Unavailable)
      ensures r.Ok? ==> r.value.id in db.devices && r.value == AsRegistration(r.value.id, db.devices[r.value.id])
    {
      hide Holder, Inv, StoredEndpoint, D.Complaint, D.BindingOf, ValidRow, NewRow, Rewritten, AsRegistration, Rebound,
           Created;
      if oldId <= 0 || IsZero(now) || D.Complaint(authority, user, sub, platform).Some? {
        return Err(Input);
      }
      var up := db.Reach();
      if !up {
        return Err(Unavailable);
      }
      ApplyKeepsInv(View(), Op.Replace(DB.Micros(now), user, oldId, D.BindingOf(sub, platform), db.deviceSeq + 1));
      if oldId !in db.devices || db.devices[oldId].revokedAt.Some? {
        return Err(NotFound);
      }
      var prior := db.devices[oldId];
      if prior.userId != user {
        return Err(Forbidden);
      }
      if sub.endpoint == prior.endpoint {
        r := Rebind(oldId, user, sub, platform);
      } else {
        r := Supersede(DB.Micros(now), user, oldId, sub, platform);
      }
    }

    /** `Replace` for an unchanged endpoint. */
    method Rebind(oldId: int, user: int, sub: D.Subscription, platform: string)
      returns (r: Result<D.Registration, Error>)
      requires Valid() && D.Complaint(authority, user, sub, platform).None?
      requires oldId in db.devices && sub.endpoint == db.devices[oldId].endpoint
      modifies db`devices
      ensures RowsSound(authority, db.users, db.devices, db.deviceSeq)
      ensures Answered(old(View()), (old(View())[oldId := Rebound(old(View())[oldId], D.BindingOf(sub, platform))],
                                     Ok(oldId)), View(), IdOf(r), Unavailable)
      ensures r.Ok? ==> r.value == AsRegistration(oldId, db.devices[oldId])
    {
      hide Inv, D.Complaint, D.BindingOf, ValidRow, NewRow, AsRegistration;
      var saved := db.devices;
      var stamp: Time := *;
      ViewOfRewritten(authority, db.devices[oldId], user, sub, platform, stamp);
      var reg := Write(oldId, Rewritten(db.devices[oldId], sub, platform, stamp));
      var ok := Commit(saved);
      return if ok then Ok(reg) else Err(Unavailable);
    }

    /** `Replace` for a new endpoint: a fresh row is inserted and the old one revoked in its favour. */
    method Supersede(now: Time, user: int, oldId: int, sub: D.Subscription,
                     platform: string) returns (r: Result<D.Registration, Error>)
      requires Valid() && D.Complaint(authority, user, sub, platform).None?
      requires oldId in db.devices && db.devices[oldId].revokedAt.None? && db.devices[oldId].userId == user
      modifies db`devices, db`deviceSeq
      ensures RowsSound(authority, db.users, db.devices, db.deviceSeq)
      ensures var before := old(View());
              var newId := old(db.deviceSeq) + 1;
              if Holder(before, sub.endpoint).Some? then r == Err(Forbidden) && View() == before
              else if !StoredEndpoint(sub.endpoint) then IdOf(r) in {Err(Input), Err(Unavailable)} && View() == before
              else
                var inserted := before[newId := Created(user, D.BindingOf(sub, platform), now)];
                var retired := before[oldId].(revokedAt := Some(now), supersededBy := newId);
                Answered(before, (inserted[oldId := retired], Ok(newId)), View(), IdOf(r), Unavailable)
      ensures r.Ok? ==> r.value.id in db.devices && r.value == AsRegistration(r.value.id, db.devices[r.value.id])
    {
      hide Inv, Holder, StoredEndpoint, RowsSound, D.Complaint, D.BindingOf, ValidRow, NewRow, AsRegistration, Created;
      var saved := db.devices;
      var holder := ActiveByEndpoint(sub.endpoint);
      if holder.Some? {
        return Err(Forbidden);
      }
      var up := db.Reach();
      if !up {
        return Err(Unavailable);
      }
      OwnerExists(db.users, db.devices, db.deviceSeq, oldId);
      db.deviceSeq := db.deviceSeq + 1;
      var newId := db.deviceSeq;
      RowsSoundAfter(authority, db.users, saved, newId - 1, newId, oldId, saved[oldId]);
      if !StoredEndpoint(sub.endpoint) {
        return Err(Input);
      }
      ViewOfNewRow(authority, user, sub, platform, now);
      ActiveRowHasNoLink(authority, db.devices, oldId);
      RowsSoundAfter(authority, db.users, saved, newId, newId, newId, NewRow(user, sub, platform, now));
      var reg := Write(newId, NewRow(user, sub, platform, now));
      up := db.Reach();
      if !up {
        db.devices := saved;
        return Err(Unavailable);
      }
      ghost var inserted := db.devices;
      var row := Retire(oldId, now, Some(newId));
      RowsSoundAfter(authority, db.users, inserted, newId, newId, oldId, row);
      var ok := Commit(saved);
      return if ok then Ok(reg) else Err(Unavailable);
    }

    lemma OwnerExists(users: set<int>, rows: map<int, DB.DeviceRow>, sequence: int, id: int)
      requires RowsSound(authority, users, rows, sequence) && id in rows
      ensures id <= sequence && 0 <= sequence && ValidRow(authority, rows[id]) && rows[id].userId in users
    {
    }

    /** The UPDATE that ends a registration. */
    method Retire(id: int, now: Time, successor: Option<int>) returns (row: DB.DeviceRow)
      requires id in db.devices && ValidRow(authority,
                                            db.devices[id]) && db.devices[id].supersededBy.None? && successor != Some(0)
      modifies db`devices
      ensures db.devices == old(db.devices)[id := row] && ValidRow(authority, row)
              && row.userId == old(db.devices)[id].userId
      ensures View() == old(View())[id := old(View())[id].(revokedAt := Some(now),
                                                           supersededBy := DB.LinkId(successor))]
    {
      var stamp: Time := *;
      row := db.devices[id].(revokedAt := Some(now), supersededBy := successor, updatedAt := stamp);
      DB.ViewOfUpdate(db.devices, id, row);
      db.devices := db.devices[id := row];
    }

    /** Idempotent: an already revoked registration keeps its time, and the transaction is simply rolled back. */
    method Revoke(now: Time, user: int, id: int) returns (r: Result<(), Error>)
      requires Valid()
      modifies db`devices
      ensures Valid()
      ensures Answered(old(View()), WithoutId(RevokeOutcome(old(View()), now, user, id)), View(), r, Unavailable)
    {
      hide Inv, ValidRow;
      if user <= 0 || id <= 0 || IsZero(now) {
        return Err(Input);
      }
      var up := db.Reach();
      if !up {
        return Err(Unavailable);
      }
      if id !in db.devices {
        return Err(NotFound);
      }
      if db.devices[id].userId != user {
        return Err(Forbidden);
      }
      if db.devices[id].revokedAt.Some? {
        return Ok(());
      }
      ApplyKeepsInv(View(), Op.Revoke(DB.Micros(now), user, id));
      ActiveRowHasNoLink(authority, db.devices, id);
      var saved := db.devices;
      var row := Retire(id, DB.Micros(now), None);
      var ok := Commit(saved);
      return if ok then Ok(()) else Err(Unavailable);
    }

    method Get(id: int) returns (r: Result<Option<D.Registration>, Error>)
      requires Valid()
      ensures r == Err(Unavailable) || r == GetOutcome(db.devices, id)
    {
      hide Inv, ValidRow, AsRegistration, Scan;
      if id <= 0 {
        return Err(Input);
      }
      var up := db.Reach();
      if !up {
        return Err(Unavailable);
      }
      if id !in db.devices {
        return Ok(None);
      }
      ScanNeverCorrupt(authority, id, db.devices[id]);
      match Scan(authority, id, db.devices[id]) {
        case Ok(reg) => return Ok(Some(reg));
      }
    }

    /** Reads the rows a query returned, in the order it returned them. */
    method ScanAll(ids: seq<int>) returns (r: Result<seq<D.Registration>, Error>)
      requires Valid() && forall k :: 0 <= k < |ids| ==> ids[k] in db.devices
      ensures r == Err(Unavailable) || r == Ok(Reread(db.devices, ids))
    {
      hide Inv, ValidRow, AsRegistration, Scan;
      var out: seq<D.Registration> := [];
      for n := 0 to |ids|
        invariant |out| == n && forall k :: 0 <= k < n ==> out[k] == AsRegistration(ids[k], db.devices[ids[k]])
      {
        var up := db.Reach();
        if !up {
          return Err(Unavailable);
        }
        ScanNeverCorrupt(authority, ids[n], db.devices[ids[n]]);
        match Scan(authority, ids[n], db.devices[ids[n]]) {
          case Ok(reg) => out := out + [reg];
        }
      }
      assert out == Reread(db.devices, ids);
      return Ok(out);
    }

    /** `ids` is what the server answers to the query. */
    method ListActive(user: int, ids: seq<int>) returns (r: Result<seq<D.Registration>, Error>)
      requires Valid() && ActiveRows(db.devices, user, ids)
      ensures r == Err(Unavailable) || r == ListOutcome(db.devices, user, ids)
      ensures r.Ok? ==> LatestFirst(r.value)
      ensures r.Ok? ==> forall reg :: reg in r.value ==> reg.userId == user && reg.revokedAt.None?
    {
      if user <= 0 {
        return Err(Input);
      }
      RereadLatestFirst(db.devices, ids);
      r := ScanAll(ids);
    }

    /** Every user's active test devices. */
    method ListActiveTestMode(ids: seq<int>) returns (r: Result<seq<D.Registration>, Error>)
      requires Valid() && TestRows(db.devices, ids)
      ensures r == Err(Unavailable) || r == Ok(Reread(db.devices, ids))
      ensures r.Ok? ==> LatestFirst(r.value)
      ensures r.Ok? ==> forall reg :: reg in r.value ==> reg.testMode && reg.revokedAt.None?
    {
      RereadLatestFirst(db.devices, ids);
      r := ScanAll(ids);
    }
  }
}
