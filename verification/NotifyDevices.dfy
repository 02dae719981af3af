/**
 The in-memory registration store: a map keyed by id and a counter, searched by scanning.
 What a URL parser accepts after "https://" is a parameter.
 */
module NotifyDevices {
  import opened Prelude
  import Base64
  import opened DeviceRegistry

  const P256DH_DECODED_LEN := 65
  const AUTH_DECODED_LEN := 16
  const MAX_ENDPOINT_LEN := 2048
  const MAX_PLATFORM_LEN := 64

  datatype Error = InvalidUserID | InvalidEndpoint | InvalidP256dh | InvalidAuth | InvalidPlatform | NotFound
                 | Forbidden

  datatype Keys = Keys(p256dh: string, auth: string)

  datatype Subscription = Subscription(endpoint: string, keys: Keys)

  datatype Registration = Registration(id: int, userId: int, subscription: Subscription, platform: string,
                                       createdAt: Time, updatedAt: Time, revokedAt: Option<Time>,
                                       supersededBy: int, testMode: bool)

  /** What follows "https://" in an endpoint the URL parser accepts with a host. */
  type Authority = string -> bool

  function Lower(c: char): char {
    if 'A' <= c <= 'Z' then ((c as int) + 32) as char else c
  }

  function LowerAll(s: string): string {
    seq(|s|, i requires 0 <= i < |s| => Lower(s[i]))
  }

  predicate ValidEndpoint(authority: Authority, endpoint: string) {
    && 0 < |endpoint| <= MAX_ENDPOINT_LEN
    && |endpoint| >= 8 && LowerAll(endpoint[..5]) == "https" && endpoint[5..8] == "://"
    && authority(endpoint[8..])
  }

  function DecodeB64Url(s: string): Option<seq<Byte>> {
    match Base64.DecodeRaw(Base64.Url, s)
    case Some(b) => Some(b)
    case None => Base64.DecodePadded(Base64.Url, s)
  }

  predicate ValidKey(s: string, size: nat) {
    match DecodeB64Url(s)
    case Some(b) => |b| == size
    case None => false
  }

  predicate AlphaNumeric(c: char) {
    'A' <= c <= 'Z' || 'a' <= c <= 'z' || '0' <= c <= '9'
  }

  predicate ValidPlatform(platform: string) {
    platform == "" ||
    (&& |platform| <= MAX_PLATFORM_LEN
     && AlphaNumeric(platform[0])
     && forall i :: 1 <= i < |platform| ==> AlphaNumeric(platform[i]) || platform[i] in " ._-")
  }

  /** The first complaint of `Subscription.Validate` and `validatePlatform`, in their order. */
  function Complaint(authority: Authority, user: int, sub: Subscription, platform: string): Option<Error> {
    if user <= 0 then Some(InvalidUserID)
    else if !ValidEndpoint(authority, sub.endpoint) then Some(InvalidEndpoint)
    else if !ValidKey(sub.keys.p256dh, P256DH_DECODED_LEN) then Some(InvalidP256dh)
    else if !ValidKey(sub.keys.auth, AUTH_DECODED_LEN) then Some(InvalidAuth)
    else if !ValidPlatform(platform) then Some(InvalidPlatform)
    else None
  }

  /** The checks in their order; the complaint is the first that fails. */
  lemma ComplaintIsFirst(authority: Authority, user: int, sub: Subscription, platform: string)
    ensures var valid := [user > 0, ValidEndpoint(authority, sub.endpoint), ValidKey(sub.keys.p256dh, 65),
                          ValidKey(sub.keys.auth, 16), ValidPlatform(platform)];
            var errors := [InvalidUserID, InvalidEndpoint, InvalidP256dh, InvalidAuth, InvalidPlatform];
            match Complaint(authority, user, sub, platform)
            case Some(e) => exists k :: 0 <= k < 5 && errors[k] == e && !valid[k] && forall l :: 0 <= l < k ==> valid[l]
            case None => forall k :: 0 <= k < 5 ==> valid[k]
  {
    hide ValidEndpoint, ValidKey, ValidPlatform;
    var valid := [user > 0, ValidEndpoint(authority, sub.endpoint), ValidKey(sub.keys.p256dh, 65),
                  ValidKey(sub.keys.auth, 16), ValidPlatform(platform)];
    var errors := [InvalidUserID, InvalidEndpoint, InvalidP256dh, InvalidAuth, InvalidPlatform];
    match Complaint(authority, user, sub, platform)
    case Some(e) =>
      var k := if e == InvalidUserID then 0 else if e == InvalidEndpoint then 1 else if e == InvalidP256dh then 2
               else if e == InvalidAuth then 3 else 4;
      assert errors[k] == e;
    case None =>
  }

  /** A key may be spelled with or without padding, and means the same bytes. */
  lemma KeySpellings(b: seq<Byte>)
    ensures var plain := Base64.Encode(Base64.Url, b);
            && DecodeB64Url(plain) == Some(b) && DecodeB64Url(Base64.Padded(plain)) == Some(b)
            && ValidKey(plain, |b|) && ValidKey(Base64.Padded(plain), |b|)
  {
    hide Base64.Encode, Base64.DecodeRaw, Base64.DecodePadded, Base64.Padded;
    Base64.RoundTrip(Base64.Url, b);
    Base64.PaddedRoundTrip(Base64.Url, b);
    Base64.PaddedIsNotRaw(Base64.Url, b);
  }

  /** The scheme may be written in any case, but the endpoint must have something the URL parser takes behind it. */
  lemma EndpointsExactly(authority: Authority, endpoint: string)
    ensures ValidEndpoint(authority, endpoint) <==>
            && 8 <= |endpoint| <= 2048 && authority(endpoint[8..])
            && (endpoint[0] == 'h' || endpoint[0] == 'H') && (endpoint[1] == 't' || endpoint[1] == 'T')
            && (endpoint[2] == 't' || endpoint[2] == 'T') && (endpoint[3] == 'p' || endpoint[3] == 'P')
            && (endpoint[4] == 's' || endpoint[4] == 'S')
            && endpoint[5] == ':' && endpoint[6] == '/' && endpoint[7] == '/'
  {
    if |endpoint| >= 8 {
      var scheme := LowerAll(endpoint[..5]);
      assert forall k :: 0 <= k < 5 ==> scheme[k] == Lower(endpoint[k]);
      assert scheme == "https" <==>
             scheme[0] == 'h' && scheme[1] == 't' && scheme[2] == 't' && scheme[3] == 'p' && scheme[4] == 's';
      assert endpoint[5..8] == "://" <==> endpoint[5] == ':' && endpoint[6] == '/' && endpoint[7] == '/' by {
        assert endpoint[5..8] == [endpoint[5], endpoint[6], endpoint[7]];
      }
    }
  }

  function KeyBytes(s: string): seq<Byte> {
    match DecodeB64Url(s)
    case Some(b) => b
    case None => []
  }

  function BindingOf(sub: Subscription, platform: string): (b: Binding)
    ensures b.endpoint == sub.endpoint
  {
    Binding(sub.endpoint, KeyBytes(sub.keys.p256dh), KeyBytes(sub.keys.auth), platform)
  }

  function AsDevice(r: Registration): Device {
    Device(r.userId, r.subscription.endpoint, KeyBytes(r.subscription.keys.p256dh), KeyBytes(r.subscription.keys.auth),
           r.platform, r.createdAt, r.revokedAt, r.supersededBy, r.testMode)
  }

  function AsDevices(rows: map<int, Registration>): (d: Devices)
    ensures d.Keys == rows.Keys
  {
    map id | id in rows :: AsDevice(rows[id])
  }

  lemma ViewOfUpdate(rows: map<int, Registration>, id: int, r: Registration)
    ensures AsDevices(rows[id := r]) == AsDevices(rows)[id := AsDevice(r)]
  {
  }

  lemma ViewAt(rows: map<int, Registration>, id: int)
    requires id in rows
    ensures AsDevices(rows)[id] == AsDevice(rows[id])
  {
  }

  lemma ViewOfRebound(r: Registration, sub: Subscription, platform: string, now: Time)
    requires r.subscription.endpoint == sub.endpoint
    ensures AsDevice(r.(subscription := sub, platform := platform, updatedAt := now)) ==
            Rebound(AsDevice(r), BindingOf(sub, platform))
  {
  }

  lemma ViewOfCreated(id: int, user: int, sub: Subscription, platform: string, now: Time)
    ensures AsDevice(Registration(id, user, sub, platform, now, now, None, 0, false)) ==
            Created(user, BindingOf(sub, platform), now)
  {
  }

  function Refused(r: Refusal): Error {
    if r.NoSuchDevice? then NotFound else Forbidden
  }

  /** The caller sees the outcome of a registry operation: the changed registration, or why not. */
  ghost predicate Reports(r: Result<Registration, Error>, rows: map<int, Registration>, outcome: Result<int, Refusal>) {
    match outcome
    case Ok(id) => id in rows && r == Ok(rows[id])
    case Err(e) => r == Err(Refused(e))
  }

  function RegistrationOf(rows: map<int, Registration>, id: int): Option<Registration> {
    if id in rows then Some(rows[id]) else None
  }

  /** Every active registration of the user, each once, in whatever order. */
  ghost predicate ListsActive(rows: map<int, Registration>, user: int, out: seq<Registration>) {
    NoDuplicates(out) &&
    forall r :: r in out <==> r.id in rows && rows[r.id] == r && r.userId == user && r.revokedAt.None?
  }

  class Store {
    const authority: Authority
    var byID: map<int, Registration>
    var nextID: int

    constructor (authority: Authority)
      ensures Valid() && View() == map[] && this.authority == authority
    {
      this.authority := authority;
      byID := map[];
      nextID := 0;
      new;
      assert View() == map[];
    }

    ghost function View(): Devices
      reads this
    {
      AsDevices(byID)
    }

    ghost predicate Valid()
      reads this
    {
      && nextID >= 0
      && (forall id :: id in byID ==> id <= nextID && byID[id].id == id)
      && Inv(View())
    }

    /** A full scan in whatever order the map yields; the invariant makes the answer unique. */
    method ActiveByEndpoint(endpoint: string) returns (r: Option<Registration>)
      requires Valid()
      ensures match Holder(View(), endpoint)
              case Some(id) => id in byID && r == Some(byID[id])
              case None => r == None
    {
      hide Holder;
      var rest := byID.Keys;
      while exists id :: id in rest
        invariant rest <= byID.Keys
        invariant forall id :: id in byID.Keys - rest ==> !Holds(View(), id, endpoint)
        decreases |rest|
      {
        var id :| id in rest;
        rest := rest - {id};
        if byID[id].revokedAt.None? && byID[id].subscription.endpoint == endpoint {
          HolderIsUnique(View(), endpoint, id);
          return Some(byID[id]);
        }
      }
      assert forall id :: !Holds(View(), id, endpoint);
      return None;
    }

    method Register(now: Time, user: int, sub: Subscription, platform: string) returns (r: Result<Registration, Error>)
      requires Valid()
      modifies this
      ensures Valid()
      ensures match Complaint(authority, user, sub, platform)
              case Some(e) => r == Err(e) && byID == old(byID)
              case None =>
                var outcome := Registered(old(View()), now, user, BindingOf(sub, platform), old(nextID) + 1);
                && View() == outcome.0 && Reports(r, byID, outcome.1)
                && (r.Ok? ==>
                      byID == old(byID)[r.value.id := r.value]
                      && r.value.subscription == sub && r.value.updatedAt == now)
    {
      hide Holder, Inv, Complaint, BindingOf, KeyBytes;
      var complaint := Complaint(authority, user, sub, platform);
      if complaint.Some? {
        return Err(complaint.value);
      }
      ghost var before := View();
      ghost var b := BindingOf(sub, platform);
      assert FreshId(before, nextID + 1);
      ApplyKeepsInv(before, DeviceRegistry.Op.Register(now, user, b, nextID + 1));
      var existing := ActiveByEndpoint(sub.endpoint);
      if existing.Some? {
        var reg := existing.value;
        if reg.userId != user {
          return Err(Forbidden);
        }
        reg := reg.(subscription := sub, platform := platform, updatedAt := now);
        byID := byID[reg.id := reg];
        ViewOfRebound(existing.value, sub, platform, now);
        ViewOfUpdate(old(byID), reg.id, reg);
        return Ok(reg);
      }
      nextID := nextID + 1;
      var reg := Registration(nextID, user, sub, platform, now, now, None, 0, false);
      byID := byID[reg.id := reg];
      ViewOfCreated(nextID, user, sub, platform, now);
      ViewOfUpdate(old(byID), reg.id, reg);
      return Ok(reg);
    }

    method Replace(now: Time, user: int, oldId: int, sub: Subscription,
                   platform: string) returns (r: Result<Registration, Error>)
      requires Valid()
      modifies this
      ensures Valid()
      ensures match Complaint(authority, user, sub, platform)
              case Some(e) => r == Err(e) && byID == old(byID)
              case None =>
                var outcome := Replaced(old(View()), now, user, oldId, BindingOf(sub, platform), old(nextID) + 1);
                && View() == outcome.0 && Reports(r, byID, outcome.1)
                && (r.Ok? ==> r.value.subscription == sub && r.value.updatedAt == now)
                && forall id :: id in old(byID) && id != oldId ==> id in byID && byID[id] == old(byID)[id]
    {
      hide Holder, Inv, Complaint, BindingOf, KeyBytes, AsDevices, Rebound, Created;
      var complaint := Complaint(authority, user, sub, platform);
      if complaint.Some? {
        return Err(complaint.value);
      }
      ghost var before := View();
      ghost var b := BindingOf(sub, platform);
      assert FreshId(before, nextID + 1);
      ApplyKeepsInv(before, DeviceRegistry.Op.Replace(now, user, oldId, b, nextID + 1));
      if oldId !in byID {
        return Err(NotFound);
      }
      ViewAt(byID, oldId);
      if byID[oldId].revokedAt.Some? {
        return Err(NotFound);
      }
      var prior := byID[oldId];
      if prior.userId != user {
        return Err(Forbidden);
      }
      if sub.endpoint == prior.subscription.endpoint {
        prior := prior.(subscription := sub, platform := platform, updatedAt := now);
        byID := byID[prior.id := prior];
        ViewOfRebound(old(byID)[oldId], sub, platform, now);
        ViewOfUpdate(old(byID), oldId, prior);
        return Ok(prior);
      }
      var existing := ActiveByEndpoint(sub.endpoint);
      if existing.Some? && existing.value.id != oldId {
        return Err(Forbidden);
      }
      nextID := nextID + 1;
      var reg := Registration(nextID, user, sub, platform, now, now, None, 0, false);
      byID := byID[reg.id := reg];
      prior := prior.(revokedAt := Some(now), supersededBy := reg.id);
      byID := byID[prior.id := prior];
      ViewOfCreated(nextID, user, sub, platform, now);
      ViewOfUpdate(old(byID), reg.id, reg);
      ViewOfUpdate(old(byID)[reg.id := reg], oldId, prior);
      return Ok(reg);
    }

    method Revoke(now: Time, user: int, id: int) returns (r: Result<(), Error>)
      requires Valid()
      modifies this
      ensures Valid()
      ensures if user <= 0 then r == Err(InvalidUserID) && byID == old(byID) else
              var outcome := Revoked(old(View()), now, user, id);
              && View() == outcome.0
              && (forall i :: i in old(byID) ==> i in byID && byID[i] == old(byID)[i].(revokedAt := byID[i].revokedAt))
              && r == (match outcome.1 case Ok(_) => Ok(()) case Err(e) => Err(Refused(e)))
    {
      hide Inv;
      if user <= 0 {
        return Err(InvalidUserID);
      }
      ghost var before := View();
      ApplyKeepsInv(before, DeviceRegistry.Op.Revoke(now, user, id));
      if id !in byID {
        return Err(NotFound);
      }
      var reg := byID[id];
      if reg.userId != user {
        return Err(Forbidden);
      }
      if reg.revokedAt.Some? {
        return Ok(());
      }
      byID := byID[id := reg.(revokedAt := Some(now))];
      ViewOfUpdate(old(byID), id, byID[id]);
      return Ok(());
    }

    method Get(id: int) returns (r: Option<Registration>)
      ensures r == RegistrationOf(byID, id)
    {
      return if id in byID then Some(byID[id]) else None;
    }

    /** Every active registration of the user, each once, in no particular order. */
    method ListActive(user: int) returns (out: seq<Registration>)
      requires Valid()
      ensures ListsActive(byID, user, out)
    {
      hide Inv;
      out := [];
      var rest := byID.Keys;
      while exists id :: id in rest
        invariant rest <= byID.Keys && NoDuplicates(out)
        invariant forall r :: r in out <==>
          r.id in byID.Keys - rest && byID[r.id] == r && r.userId == user && r.revokedAt.None?
        decreases |rest|
      {
        var id :| id in rest;
        rest := rest - {id};
        if byID[id].userId == user && byID[id].revokedAt.None? {
          out := out + [byID[id]];
        }
      }
    }
  }
}
