/**
 What the two device stores have in common: registrations with decoded key material, keyed by id,
 and the three operations that change them, up to the choice of a fresh id.
 */
module DeviceRegistry {
  import opened Prelude

  /** `supersededBy` 0 means never superseded. */
  datatype Device = Device(userId: int, endpoint: string, p256dh: seq<Byte>, auth: seq<Byte>, platform: string,
                           createdAt: Time, revokedAt: Option<Time>, supersededBy: int, testMode: bool)

  type Devices = map<int, Device>

  /** The part of a registration its owner supplies. */
  datatype Binding = Binding(endpoint: string, p256dh: seq<Byte>, auth: seq<Byte>, platform: string)

  datatype Refusal = NoSuchDevice | NotYours

  predicate Holds(d: Devices, id: int, endpoint: string) {
    id in d && d[id].revokedAt.None? && d[id].endpoint == endpoint
  }

  /** The active registration of an endpoint, if there is one. */
  ghost function Holder(d: Devices, endpoint: string): (r: Option<int>)
    ensures r.Some? ==> Holds(d, r.value, endpoint)
    ensures r.None? ==> forall id :: !Holds(d, id, endpoint)
  {
    if exists id :: Holds(d, id, endpoint) then
      var id :| Holds(d, id, endpoint);
      Some(id)
    else None
  }

  function Created(user: int, b: Binding, now: Time): Device {
    Device(user, b.endpoint, b.p256dh, b.auth, b.platform, now, None, 0, false)
  }

  function Rebound(d: Device, b: Binding): Device {
    d.(endpoint := b.endpoint, p256dh := b.p256dh, auth := b.auth, platform := b.platform)
  }

  ghost function Registered(d: Devices, now: Time, user: int, b: Binding, newId: int): (Devices, Result<int, Refusal>) {
    match Holder(d, b.endpoint)
    case Some(id) => if d[id].userId != user then (d, Err(NotYours)) else (d[id := Rebound(d[id], b)], Ok(id))
    case None => (d[newId := Created(user, b, now)], Ok(newId))
  }

  ghost function Replaced(d: Devices, now: Time, user: int, oldId: int, b: Binding,
                          newId: int): (Devices, Result<int, Refusal>) {
    if oldId !in d || d[oldId].revokedAt.Some? then (d, Err(NoSuchDevice))
    else if d[oldId].userId != user then (d, Err(NotYours))
    else if b.endpoint == d[oldId].endpoint then (d[oldId := Rebound(d[oldId], b)], Ok(oldId))
    else if Holder(d, b.endpoint).Some? then (d, Err(NotYours))
    else (d[newId := Created(user, b, now)][oldId := d[oldId].(revokedAt := Some(now), supersededBy := newId)],
          Ok(newId))
  }

  function Revoked(d: Devices, now: Time, user: int, id: int): (Devices, Result<int, Refusal>) {
    if id !in d then (d, Err(NoSuchDevice))
    else if d[id].userId != user then (d, Err(NotYours))
    else if d[id].revokedAt.Some? then (d, Ok(id))
    else (d[id := d[id].(revokedAt := Some(now))], Ok(id))
  }

  datatype Op =
    | Register(now: Time, user: int, b: Binding, newId: int)
    | Replace(now: Time, user: int, oldId: int, b: Binding, newId: int)
    | Revoke(now: Time, user: int, id: int)

  ghost function Apply(d: Devices, op: Op): (Devices, Result<int, Refusal>) {
    match op
    case Register(now, user, b, newId) => Registered(d, now, user, b, newId)
    case Replace(now, user, oldId, b, newId) => Replaced(d, now, user, oldId, b, newId)
    case Revoke(now, user, id) => Revoked(d, now, user, id)
  }

  /** A fresh id is positive and above every id in use. */
  ghost predicate FreshId(d: Devices, newId: int) {
    newId > 0 && forall id :: id in d ==> id < newId
  }

  ghost predicate Enabled(d: Devices, op: Op) {
    op.Revoke? || FreshId(d, op.newId)
  }

  // The invariant

  /** At most one active registration per endpoint. */
  ghost predicate UniqueEndpoints(d: Devices) {
    forall i, j ::
      i in d && j in d && d[i].revokedAt.None? && d[j].revokedAt.None? && d[i].endpoint == d[j].endpoint ==> i == j
  }

  /** A supersession link belongs to a revoked registration and leads to a later one of the same user. */
  ghost predicate LinksForward(d: Devices) {
    forall i :: i in d && d[i].supersededBy != 0 ==>
      var next := d[i].supersededBy;
      d[i].revokedAt.Some? && i < next && next in d && d[next].userId == d[i].userId
  }

  ghost predicate LinksUnshared(d: Devices) {
    forall i, j :: i in d && j in d && d[i].supersededBy == d[j].supersededBy != 0 ==> i == j
  }

  ghost predicate Inv(d: Devices) {
    && (forall i :: i in d ==> i > 0)
    && UniqueEndpoints(d) && LinksForward(d) && LinksUnshared(d)
  }

  lemma RebindKeepsInv(d: Devices, id: int, b: Binding)
    requires Inv(d) && id in d && d[id].endpoint == b.endpoint
    ensures Inv(d[id := Rebound(d[id], b)])
  {
    var e := d[id := Rebound(d[id], b)];
    assert UniqueEndpoints(e);
    assert LinksForward(e);
  }

  lemma CreateKeepsInv(d: Devices, now: Time, user: int, b: Binding, newId: int)
    requires Inv(d) && FreshId(d, newId) && Holder(d, b.endpoint).None?
    ensures Inv(d[newId := Created(user, b, now)])
  {
    var e := d[newId := Created(user, b, now)];
    assert UniqueEndpoints(e) by {
      forall i | i in d && d[i].revokedAt.None? ensures d[i].endpoint != b.endpoint {
        assert !Holds(d, i, b.endpoint);
      }
    }
    assert LinksForward(e);
  }

  /** An active registration may be revoked, with or without a successor that nothing else leads to. */
  lemma RetireKeepsInv(d: Devices, id: int, now: Time, next: int)
    requires Inv(d) && id in d && d[id].revokedAt.None?
    requires next != 0 ==> id < next && next in d && d[next].userId == d[id].userId
    requires next != 0 ==> forall i :: i in d ==> d[i].supersededBy != next
    ensures Inv(d[id := d[id].(revokedAt := Some(now), supersededBy := next)])
  {
    var e := d[id := d[id].(revokedAt := Some(now), supersededBy := next)];
    assert UniqueEndpoints(e);
    assert LinksForward(e);
    assert LinksUnshared(e);
  }

  lemma ReplacedKeepsInv(d: Devices, now: Time, user: int, oldId: int, b: Binding, newId: int)
    requires Inv(d) && FreshId(d, newId)
    ensures Inv(Replaced(d, now, user, oldId, b, newId).0)
  {
    hide UniqueEndpoints, LinksUnshared, Holder;
    if oldId in d && d[oldId].revokedAt.None? && d[oldId].userId == user {
      if b.endpoint == d[oldId].endpoint {
        RebindKeepsInv(d, oldId, b);
      } else if Holder(d, b.endpoint).None? {
        CreateKeepsInv(d, now, user, b, newId);
        RetireKeepsInv(d[newId := Created(user, b, now)], oldId, now, newId);
      }
    }
  }

  /** Every operation keeps the invariant, whichever fresh id it is given. */
  lemma ApplyKeepsInv(d: Devices, op: Op)
    requires Inv(d) && Enabled(d, op)
    ensures Inv(Apply(d, op).0)
  {
    hide UniqueEndpoints, LinksForward, LinksUnshared, Replaced;
    match op
    case Register(now, user, b, newId) =>
      match Holder(d, b.endpoint) {
        case Some(id) => RebindKeepsInv(d, id, b);
        case None => CreateKeepsInv(d, now, user, b, newId);
      }
    case Replace(now, user, oldId, b, newId) => ReplacedKeepsInv(d, now, user, oldId, b, newId);
    case Revoke(now, user, id) =>
      if id in d && d[id].revokedAt.None? {
        ActiveHasNoSuccessor(d, id);
        RetireKeepsInv(d, id, now, 0);
      }
  }

  lemma ActiveHasNoSuccessor(d: Devices, id: int)
    requires LinksForward(d) && id in d && d[id].revokedAt.None?
    ensures d[id].supersededBy == 0
  {
  }

  /** Under the invariant it does not matter in which order the registrations are searched. */
  lemma HolderIsUnique(d: Devices, endpoint: string, id: int)
    requires UniqueEndpoints(d) && Holds(d, id, endpoint)
    ensures Holder(d, endpoint) == Some(id)
  {
  }

  // What each operation achieves

  /** An active registration of the user with exactly the supplied endpoint, keys and platform. */
  predicate Bound(d: Device, user: int, b: Binding) {
    && d.userId == user && d.revokedAt.None?
    && Binding(d.endpoint, d.p256dh, d.auth, d.platform) == b
  }

  ghost predicate OnlyChanges(d: Devices, after: Devices, ids: set<int>) {
    && (forall i :: i in after <==> i in d || i in ids)
    && forall i :: i in d && i !in ids ==> after[i] == d[i]
  }

  ghost predicate Taken(d: Devices, endpoint: string) {
    exists id :: Holds(d, id, endpoint)
  }

  /**
   Registering goes through unless someone else holds the endpoint. The endpoint's registration, old or new, is then
   bound as asked, an old one keeping its birth and test mode, and no other changes.
   */
  lemma RegisterExactly(d: Devices, now: Time, user: int, b: Binding, newId: int)
    requires UniqueEndpoints(d) && newId !in d
    ensures var (after, r) := Registered(d, now, user, b, newId);
            match r
            case Ok(id) =>
              && (forall i :: Holds(d, i, b.endpoint) ==> i == id && d[i].userId == user)
              && OnlyChanges(d, after, {id}) && Bound(after[id], user, b)
              && (if Taken(d, b.endpoint) then
                    id in d && after[id].createdAt == d[id].createdAt && after[id].testMode == d[id].testMode
                  else id == newId && after[id].createdAt == now && !after[id].testMode && after[id].supersededBy == 0)
            case Err(e) => e == NotYours && after == d && exists i :: Holds(d, i, b.endpoint) && d[i].userId != user
  {
  }

  /**
   Replacing goes through on the user's own active registration, unless the endpoint is a new one and taken. A
   registration that keeps its endpoint is bound as asked; otherwise a new one is, and the old one is revoked at this
   time in its favour.
   */
  lemma ReplaceExactly(d: Devices, now: Time, user: int, oldId: int, b: Binding, newId: int)
    requires newId !in d
    ensures var (after, r) := Replaced(d, now, user, oldId, b, newId);
            match r
            case Ok(id) =>
              && oldId in d && d[oldId].revokedAt.None? && d[oldId].userId == user && id in after
              && Bound(after[id], user, b)
              && (if b.endpoint == d[oldId].endpoint then
                    id == oldId && OnlyChanges(d, after, {id}) && after[id].createdAt == d[id].createdAt
                  else
                    && id == newId && !Taken(d, b.endpoint) && OnlyChanges(d, after, {id, oldId})
                    && after[id].createdAt == now && !after[id].testMode && after[id].supersededBy == 0
                    && after[oldId] == d[oldId].(revokedAt := Some(now), supersededBy := id))
            case Err(NoSuchDevice) => after == d && (oldId !in d || d[oldId].revokedAt.Some?)
            case Err(NotYours) =>
              && after == d && oldId in d && d[oldId].revokedAt.None?
              && (d[oldId].userId != user || (b.endpoint != d[oldId].endpoint && Taken(d, b.endpoint)))
  {
  }

  /** Revoking goes through on the user's own registration, and only the first revocation leaves a trace. */
  lemma RevokeExactly(d: Devices, now: Time, user: int, id: int)
    ensures var (after, r) := Revoked(d, now, user, id);
            match r
            case Ok(i) =>
              && i == id && id in d && d[id].userId == user && OnlyChanges(d, after, {id})
              && after[id] == d[id].(revokedAt := if d[id].revokedAt.Some? then d[id].revokedAt else Some(now))
            case Err(NoSuchDevice) => after == d && id !in d
            case Err(NotYours) => after == d && id in d && d[id].userId != user
  {
  }

  /** What a registration can never lose: its owner and birth, and once revoked, everything. */
  ghost predicate Persists(d: Devices, later: Devices) {
    forall i :: i in d ==>
      && i in later && later[i].userId == d[i].userId && later[i].createdAt == d[i].createdAt
      && (d[i].revokedAt.Some? ==> later[i] == d[i])
  }

  lemma ApplyPersists(d: Devices, op: Op)
    requires Enabled(d, op)
    ensures Persists(d, Apply(d, op).0)
  {
  }

  /** A run of the three operations, starting empty. */
  ghost predicate IsRun(s: seq<Devices>, ops: seq<Op>) {
    && |s| == |ops| + 1 && s[0] == map[]
    && forall i :: 0 <= i < |ops| ==> Enabled(s[i], ops[i]) && s[i + 1] == Apply(s[i], ops[i]).0
  }

  lemma {:induction false} RunInv(s: seq<Devices>, ops: seq<Op>, n: nat)
    requires IsRun(s, ops) && n < |s|
    ensures Inv(s[n])
  {
    if n > 0 {
      RunInv(s, ops, n - 1);
      ApplyKeepsInv(s[n - 1], ops[n - 1]);
    }
  }

  /** In every run a revoked registration stays exactly as it was, revocation time included. */
  lemma {:induction false} RevokedForGood(s: seq<Devices>, ops: seq<Op>, i: nat, j: nat)
    requires IsRun(s, ops) && i <= j < |s|
    ensures Persists(s[i], s[j])
  {
    if i < j {
      RevokedForGood(s, ops, i, j - 1);
      ApplyPersists(s[j - 1], ops[j - 1]);
    }
  }

  // Supersession chains

  ghost function Above(d: Devices, id: int): set<int> {
    set i | i in d && i > id
  }

  lemma LinkClimbs(d: Devices, id: int)
    requires LinksForward(d) && id in d && d[id].supersededBy != 0
    ensures Above(d, d[id].supersededBy) < Above(d, id)
  {
    assert d[id].supersededBy in Above(d, id) - Above(d, d[id].supersededBy);
  }

  /** Following the links from `id` to the end. */
  ghost function ChainEnd(d: Devices, id: int): int
    requires LinksForward(d) && id in d
    decreases Above(d, id)
  {
    if d[id].supersededBy == 0 then id else LinkClimbs(d, id); ChainEnd(d, d[id].supersededBy)
  }

  ghost predicate LeadsTo(d: Devices, id: int, x: int)
    requires LinksForward(d) && id in d
    decreases Above(d, id)
  {
    id == x || (d[id].supersededBy != 0 && (LinkClimbs(d, id); LeadsTo(d, d[id].supersededBy, x)))
  }

  /** Every chain ends, within one user, and only the end of a chain can be active. */
  lemma {:induction false} ChainsEnd(d: Devices, id: int)
    requires LinksForward(d) && id in d
    ensures var end := ChainEnd(d, id);
            && end in d && id <= end && d[end].supersededBy == 0 && d[end].userId == d[id].userId
            && forall x :: x in d && LeadsTo(d, id, x) && d[x].revokedAt.None? ==> x == end
    decreases Above(d, id)
  {
    if d[id].supersededBy != 0 {
      LinkClimbs(d, id);
      ChainsEnd(d, d[id].supersededBy);
    }
  }
}
