/**
 The table-backed registration store simulates the in-memory one: started alike and driven with the same calls they
 answer alike and stay alike, up to the ids they hand out, and exactly as long as the table's own checks agree.
 */
module DeviceRefinement {
  import opened Prelude
  import Base64
  import opened DeviceRegistry
  import D = NotifyDevices
  import T = NotifyDeviceStore
  import DB = NotifyDatabase

  /** From the ids of the memory store to those of the table. */
  type Renaming = map<int, int>

  function RenamedLink(f: Renaming, link: int): int {
    if link in f then f[link] else 0
  }

  function KeptTime(t: Option<Time>): Option<Time> {
    match t
    case Some(at) => Some(DB.Micros(at))
    case None => None
  }

  /** The registration as the table keeps it: links renamed, times in whole microseconds. */
  function Renamed(f: Renaming, d: Device): Device {
    d.(supersededBy := RenamedLink(f, d.supersededBy), createdAt := DB.Micros(d.createdAt),
       revokedAt := KeptTime(d.revokedAt))
  }

  ghost predicate Injective(f: Renaming) {
    forall i, j :: i in f && j in f && f[i] == f[j] ==> i == j
  }

  ghost predicate Hit(f: Renaming, k: int) {
    exists i :: i in f && f[i] == k
  }

  /** The same registrations under other ids. */
  ghost predicate Related(m: Devices, t: Devices, f: Renaming) {
    && f.Keys == m.Keys && Injective(f)
    && (forall i :: i in m ==> f[i] in t && t[f[i]] == Renamed(f, m[i]))
    && forall k :: k in t ==> Hit(f, k)
  }

  /** The two calls name the same registration, or both name none. */
  predicate Corresponds(m: Devices, t: Devices, f: Renaming, i: int, j: int) {
    if i in m then i in f && f[i] == j else j !in t
  }

  /** Both succeed with corresponding ids or both fail with the same class of error. */
  predicate SameAnswer(rm: Result<int, T.Error>, rt: Result<int, T.Error>, f: Renaming) {
    match (rm, rt)
    case (Ok(i), Ok(j)) => i in f && f[i] == j
    case (Err(d), Err(e)) => d == e
    case _ => false
  }

  /** What the memory store does, with its validation errors folded into the one class the table store has. */
  ghost function MemoryRegister(authority: D.Authority, d: Devices, now: Time, user: int, sub: D.Subscription,
                                platform: string, newId: int): (Devices, Result<int, T.Error>) {
    if D.Complaint(authority, user, sub, platform).Some? then (d, Err(T.Input))
    else T.Lift(Registered(d, now, user, D.BindingOf(sub, platform), newId))
  }

  ghost function MemoryReplace(authority: D.Authority, d: Devices, now: Time, user: int, oldId: int,
                               sub: D.Subscription, platform: string, newId: int): (Devices, Result<int, T.Error>) {
    if D.Complaint(authority, user, sub, platform).Some? then (d, Err(T.Input))
    else T.Lift(Replaced(d, now, user, oldId, D.BindingOf(sub, platform), newId))
  }

  function MemoryRevoke(d: Devices, now: Time, user: int, id: int): (Devices, Result<int, T.Error>) {
    if user <= 0 then (d, Err(T.Input)) else T.Lift(Revoked(d, now, user, id))
  }

  // One change of one registration

  lemma HolderRelated(m: Devices, t: Devices, f: Renaming, endpoint: string)
    requires Related(m, t, f) && UniqueEndpoints(t)
    ensures match Holder(m, endpoint)
            case Some(i) => Holder(t, endpoint) == Some(f[i])
            case None => Holder(t, endpoint).None?
  {
    match Holder(m, endpoint)
    case Some(i) =>
      assert Holds(t, f[i], endpoint);
      HolderIsUnique(t, endpoint, f[i]);
    case None =>
      forall k | k in t ensures !Holds(t, k, endpoint) {
        assert Hit(f, k);
        var i :| i in f && f[i] == k;
        assert !Holds(m, i, endpoint);
      }
  }

  lemma UpdateRelated(m: Devices, t: Devices, f: Renaming, i: int, d: Device)
    requires Related(m, t, f) && i in m
    ensures Related(m[i := d], t[f[i] := Renamed(f, d)], f)
  {
  }

  lemma InsertRelated(m: Devices, t: Devices, f: Renaming, i: int, j: int, d: Device)
    requires Related(m, t, f) && LinksForward(m) && i !in m && j !in t && i != 0 && d.supersededBy == 0 && 0 !in m
    ensures Related(m[i := d], t[j := Renamed(f, d)], f[i := j]) && Renamed(f, d).supersededBy == 0
  {
    var g := f[i := j];
    forall k | k in t || k == j ensures Hit(g, k) {
      if k == j {
        assert i in g && g[i] == j;
      } else {
        assert Hit(f, k);
        var x :| x in f && f[x] == k;
        assert x in g && g[x] == k;
      }
    }
    forall x | x in m ensures Renamed(g, m[x]) == Renamed(f, m[x]) {
      assert m[x].supersededBy != i;
    }
    assert Renamed(g, d) == Renamed(f, d);
  }

  // The three operations

  function Extended(f: Renaming, rm: Result<int, T.Error>, newM: int, newT: int): Renaming {
    if rm == Ok(newM) then f[newM := newT] else f
  }

  lemma RegisteredRelated(m: Devices, t: Devices, f: Renaming, now: Time, user: int, b: Binding, newM: int, newT: int)
    requires Related(m, t, f) && Inv(m) && Inv(t) && FreshId(m, newM) && FreshId(t, newT)
    ensures var rm := T.Lift(Registered(m, now, user, b, newM));
            var rt := T.Lift(Registered(t, DB.Micros(now), user, b, newT));
            var g := Extended(f, rm.1, newM, newT);
            Related(rm.0, rt.0, g) && SameAnswer(rm.1, rt.1, g) && !(rm.1 == Err(T.Input))
  {
    hide Holder, Related, UniqueEndpoints, LinksForward, LinksUnshared;
    HolderRelated(m, t, f, b.endpoint);
    match Holder(m, b.endpoint)
    case Some(i) =>
      RelatedAt(m, t, f, i);
      UpdateRelated(m, t, f, i, Rebound(m[i], b));
    case None =>
      InsertRelated(m, t, f, newM, newT, Created(user, b, now));
  }

  lemma RelatedAt(m: Devices, t: Devices, f: Renaming, i: int)
    requires Related(m, t, f) && i in m
    ensures i in f && f[i] in t && t[f[i]] == Renamed(f, m[i])
  {
  }

  /**
   Register answers alike in both stores if and only if the call is invalid in both, or the clock is set, the scheme
   is written in lower case and either the endpoint is already held or the user has an account.
   */
  lemma RegisterRefines(authority: D.Authority, users: set<int>, m: Devices, t: Devices, f: Renaming, now: Time,
                        user: int, sub: D.Subscription, platform: string, newM: int, newT: int)
    requires Related(m, t, f) && Inv(m) && Inv(t) && FreshId(m, newM) && FreshId(t, newT)
    ensures var mo := MemoryRegister(authority, m, now, user, sub, platform, newM);
            var to := T.RegisterOutcome(authority, users, t, now, user, sub, platform, newT);
            var g := Extended(f, mo.1, newM, newT);
            && (SameAnswer(mo.1, to.1, g) <==>
                || D.Complaint(authority, user, sub, platform).Some?
                || (!IsZero(now) && T.StoredEndpoint(sub.endpoint) && (Holder(t, sub.endpoint).Some? || user in users)))
            && (SameAnswer(mo.1, to.1, g) ==> Related(mo.0, to.0, g))
  {
    hide Holder, Related, Inv, Registered, T.StoredEndpoint, D.Complaint;
    RegisteredRelated(m, t, f, now, user, D.BindingOf(sub, platform), newM, newT);
  }

  /** "HTTPS://a" parses as an https URL, so the memory store takes it; the column check does not. */
  lemma UpperCaseSchemeDiverges(authority: D.Authority, users: set<int>)
    requires authority("a")
    ensures exists sub: D.Subscription ::
              && MemoryRegister(authority, map[], 1, 1, sub, "", 1).1 == Ok(1)
              && T.RegisterOutcome(authority, users, map[], 1, 1, sub, "", 1) == (map[], Err(T.Input))
  {
    hide Base64.Encode, D.DecodeB64Url;
    var p := seq(D.P256DH_DECODED_LEN, i => 0 as Byte);
    var a := seq(D.AUTH_DECODED_LEN, i => 0 as Byte);
    T.EncodedKeyDecodes(p);
    T.EncodedKeyDecodes(a);
    var endpoint := "HTTPS://a";
    var sub := D.Subscription(endpoint, D.Keys(Base64.Encode(Base64.Url, p), Base64.Encode(Base64.Url, a)));
    assert D.LowerAll(endpoint[..5]) == "https";
    assert endpoint[8..] == "a";
    assert endpoint[..8][0] != "https://"[0];
    assert Holder(map[], endpoint).None?;
    assert MemoryRegister(authority, map[], 1, 1, sub, "", 1).1 == Ok(1);
  }

  lemma ReplacedRelated(m: Devices, t: Devices, f: Renaming, now: Time, user: int, i: int, j: int, b: Binding,
                        newM: int, newT: int)
    requires Related(m, t, f) && Corresponds(m, t, f, i, j) && Inv(m) && Inv(t) && FreshId(m, newM) && FreshId(t, newT)
    ensures var rm := T.Lift(Replaced(m, now, user, i, b, newM));
            var rt := T.Lift(Replaced(t, DB.Micros(now), user, j, b, newT));
            var g := Extended(f, rm.1, newM, newT);
            && Related(rm.0, rt.0, g) && SameAnswer(rm.1, rt.1, g) && !(rm.1 == Err(T.Input))
            && (rm.1 == Ok(newM) <==> rt.1 == Ok(newT))
  {
    hide Holder, Related, UniqueEndpoints, LinksForward, LinksUnshared;
    HolderRelated(m, t, f, b.endpoint);
    if i in m && m[i].revokedAt.None? && m[i].userId == user {
      RelatedAt(m, t, f, i);
      if b.endpoint == m[i].endpoint {
        UpdateRelated(m, t, f, i, Rebound(m[i], b));
      } else if Holder(m, b.endpoint).None? {
        var c := Created(user, b, now);
        InsertRelated(m, t, f, newM, newT, c);
        var retired := m[i].(revokedAt := Some(now), supersededBy := newM);
        UpdateRelated(m[newM := c], t[newT := Renamed(f, c)], f[newM := newT], i, retired);
      }
    } else if i in m {
      RelatedAt(m, t, f, i);
    }
  }

  /** The call would insert a new registration rather than update one or refuse. */
  ghost predicate Supersedes(d: Devices, user: int, id: int, endpoint: string) {
    && id in d && d[id].revokedAt.None? && d[id].userId == user
    && d[id].endpoint != endpoint && Holder(d, endpoint).None?
  }

  /**
   Replace answers alike if and only if the call is invalid in both, or clock and id are set and a newly inserted
   endpoint has its scheme in lower case.
   */
  lemma ReplaceRefines(authority: D.Authority, m: Devices, t: Devices, f: Renaming, now: Time, user: int, i: int,
                       j: int, sub: D.Subscription, platform: string, newM: int, newT: int)
    requires Related(m, t, f) && Corresponds(m, t, f, i, j) && Inv(m) && Inv(t) && FreshId(m, newM) && FreshId(t, newT)
    ensures var mo := MemoryReplace(authority, m, now, user, i, sub, platform, newM);
            var to := T.ReplaceOutcome(authority, t, now, user, j, sub, platform, newT);
            var g := Extended(f, mo.1, newM, newT);
            && (SameAnswer(mo.1, to.1, g) <==>
                || D.Complaint(authority, user, sub, platform).Some?
                || (!IsZero(now) && j > 0 && (Supersedes(t, user, j, sub.endpoint) ==> T.StoredEndpoint(sub.endpoint))))
            && (SameAnswer(mo.1, to.1, g) ==> Related(mo.0, to.0, g))
  {
    hide Holder, Related, Inv, T.StoredEndpoint, D.Complaint;
    ReplacedRelated(m, t, f, now, user, i, j, D.BindingOf(sub, platform), newM, newT);
  }

  /** Revoke answers alike if and only if the user is invalid in both, or clock and id are set. */
  lemma RevokeRefines(m: Devices, t: Devices, f: Renaming, now: Time, user: int, i: int, j: int)
    requires Related(m, t, f) && Corresponds(m, t, f, i, j) && Inv(m) && Inv(t)
    ensures var mo := MemoryRevoke(m, now, user, i);
            var to := T.RevokeOutcome(t, now, user, j);
            && (SameAnswer(mo.1, to.1, f) <==> user <= 0 || (j > 0 && !IsZero(now)))
            && (SameAnswer(mo.1, to.1, f) ==> Related(mo.0, to.0, f))
  {
    hide Related, Inv;
    if i in m {
      RelatedAt(m, t, f, i);
      UpdateRelated(m, t, f, i, m[i].(revokedAt := Some(now)));
    }
  }

  /** What a lookup finds in one store a corresponding lookup finds in the other, and the active lists hold the same. */
  lemma ReadsRefine(m: Devices, t: Devices, f: Renaming, user: int)
    requires Related(m, t, f)
    ensures forall i, j :: Corresponds(m, t, f, i, j) ==> (i in m <==> j in t) && (i in m ==> t[j] == Renamed(f, m[i]))
    ensures forall i :: i in m ==> (Lists(m, i, user) <==> Lists(t, f[i], user))
    ensures forall k :: k in t && Lists(t, k, user) ==> exists i :: i in f && f[i] == k && Lists(m, i, user)
  {
    forall k | k in t && Lists(t, k, user) ensures exists i :: i in f && f[i] == k && Lists(m, i, user) {
      assert Hit(f, k);
      var i :| i in f && f[i] == k;
      assert Lists(m, i, user);
    }
  }

  predicate Lists(d: Devices, id: int, user: int) {
    id in d && d[id].userId == user && d[id].revokedAt.None?
  }

  /** The same registration read from either store. */
  predicate SameRegistration(rm: D.Registration, rt: D.Registration, f: Renaming) {
    rm.id in f && rt.id == f[rm.id] && D.AsDevice(rt) == Renamed(f, D.AsDevice(rm))
  }

  /** Both lookups find nothing, or the same registration. */
  predicate SameLookup(rm: Option<D.Registration>, rt: Result<Option<D.Registration>, T.Error>, f: Renaming) {
    match (rm, rt)
    case (None, Ok(None)) => true
    case (Some(x), Ok(Some(y))) => SameRegistration(x, y, f)
    case _ => false
  }

  ghost predicate InTable(reg: D.Registration, out: seq<D.Registration>, f: Renaming) {
    exists q :: 0 <= q < |out| && SameRegistration(reg, out[q], f)
  }

  ghost predicate InMemory(rm: seq<D.Registration>, reg: D.Registration, f: Renaming) {
    exists p :: 0 <= p < |rm| && SameRegistration(rm[p], reg, f)
  }

  /** Both lists hold the same registrations, and equally many. */
  ghost predicate SameList(rm: seq<D.Registration>, rt: Result<seq<D.Registration>, T.Error>, f: Renaming) {
    match rt
    case Ok(out) =>
      && |out| == |rm|
      && (forall p :: 0 <= p < |rm| ==> InTable(rm[p], out, f))
      && (forall q :: 0 <= q < |out| ==> InMemory(rm, out[q], f))
    case Err(_) => false
  }

  /** Lookups answer alike if and only if the id is one a table could hold. */
  lemma GetRefines(authority: D.Authority, mrows: map<int, D.Registration>, trows: map<int, DB.DeviceRow>, f: Renaming,
                   i: int, j: int)
    requires Related(D.AsDevices(mrows), DB.AsDevices(trows), f)
    requires Corresponds(D.AsDevices(mrows), DB.AsDevices(trows), f, i, j)
    requires forall id :: id in mrows ==> mrows[id].id == id
    requires forall id :: id in trows ==> id > 0 && T.ValidRow(authority, trows[id])
    ensures SameLookup(D.RegistrationOf(mrows, i), T.GetOutcome(trows, j), f) <==> j > 0
  {
    hide Related, T.ValidRow, T.AsRegistration, D.AsDevices, DB.AsDevices, D.AsDevice, DB.AsDevice;
    if i in mrows {
      RowsAlike(authority, mrows, trows, f, i);
    }
  }

  /** Corresponding rows read back as the same registration. */
  lemma RowsAlike(authority: D.Authority, mrows: map<int, D.Registration>, trows: map<int, DB.DeviceRow>, f: Renaming,
                  i: int)
    requires Related(D.AsDevices(mrows), DB.AsDevices(trows), f) && i in mrows && mrows[i].id == i
    requires forall id :: id in trows ==> T.ValidRow(authority, trows[id])
    ensures i in f && f[i] in trows && SameRegistration(mrows[i], T.AsRegistration(f[i], trows[f[i]]), f)
    ensures trows[f[i]].userId == mrows[i].userId && (trows[f[i]].revokedAt.None? <==> mrows[i].revokedAt.None?)
  {
    hide Related, T.ValidRow, T.AsRegistration, D.AsDevices, DB.AsDevices;
    RelatedAt(D.AsDevices(mrows), DB.AsDevices(trows), f, i);
    D.ViewAt(mrows, i);
    DB.ViewAt(trows, f[i]);
    T.ScanNeverCorrupt(authority, f[i], trows[f[i]]);
  }

  /** Distinct elements of a list are no more than its positions. */
  lemma {:induction false} Pigeonhole(a: seq<int>, b: seq<int>)
    requires NoDuplicates(a) && forall p :: 0 <= p < |a| ==> a[p] in b
    ensures |a| <= |b|
  {
    if a != [] {
      var n := |a| - 1;
      var y := a[n];
      assert y in b;
      var q :| 0 <= q < |b| && b[q] == y;
      var rest := b[..q] + b[q + 1..];
      forall p | 0 <= p < n ensures a[..n][p] in rest {
        var z := a[p];
        assert z in b && z != y;
        var r :| 0 <= r < |b| && b[r] == z;
        assert rest[if r < q then r else r - 1] == z;
      }
      Pigeonhole(a[..n], rest);
    }
  }

  ghost function Preimage(f: Renaming, k: int): (i: int)
    requires Hit(f, k)
    ensures i in f && f[i] == k
  {
    var i :| i in f && f[i] == k;
    i
  }

  lemma NewestFirstIsDistinct(rows: map<int, DB.DeviceRow>, ids: seq<int>)
    requires T.NewestFirst(rows, ids)
    ensures NoDuplicates(ids)
  {
    forall k, l | 0 <= k < l < |ids| ensures ids[k] != ids[l] {
      assert T.Newer(rows[ids[k]], ids[k], rows[ids[l]], ids[l]);
    }
  }

  /** What the memory store lists, the table lists too. */
  lemma ListedInTable(authority: D.Authority, mrows: map<int, D.Registration>, trows: map<int, DB.DeviceRow>,
                      f: Renaming, user: int, rm: seq<D.Registration>, ids: seq<int>, p: nat)
    requires Listings(authority, mrows, trows, f, user, rm, ids) && p < |rm|
    ensures rm[p].id in f && f[rm[p].id] in ids
    ensures InTable(rm[p], T.Reread(trows, ids), f)
  {
    hide Related, T.ValidRow, T.AsRegistration, D.AsDevices, DB.AsDevices, SameRegistration;
    var reg := rm[p];
    assert reg in rm;
    RowsAlike(authority, mrows, trows, f, reg.id);
    var k := f[reg.id];
    assert k in ids;
    var q :| 0 <= q < |ids| && ids[q] == k;
    assert T.Reread(trows, ids)[q] == T.AsRegistration(k, trows[k]);
  }

  /** What the table lists, the memory store lists too. */
  lemma ListedInMemory(authority: D.Authority, mrows: map<int, D.Registration>, trows: map<int, DB.DeviceRow>,
                       f: Renaming, user: int, rm: seq<D.Registration>, ids: seq<int>, q: nat)
    requires Listings(authority, mrows, trows, f, user, rm, ids) && q < |ids|
    ensures Hit(f, ids[q])
    ensures exists p :: 0 <= p < |rm| && rm[p].id == Preimage(f, ids[q])
    ensures InMemory(rm, T.Reread(trows, ids)[q], f)
  {
    hide T.ValidRow, T.AsRegistration, D.AsDevices, DB.AsDevices, SameRegistration;
    var k := ids[q];
    assert k in ids;
    assert Hit(f, k);
    var i := Preimage(f, k);
    assert i in D.AsDevices(mrows);
    RowsAlike(authority, mrows, trows, f, i);
    var reg := mrows[i];
    assert reg in rm;
    var p :| 0 <= p < |rm| && rm[p] == reg;
    assert T.Reread(trows, ids)[q] == T.AsRegistration(k, trows[k]);
  }

  /** The answers both stores may give to a listing of the user. */
  ghost predicate Listings(authority: D.Authority, mrows: map<int, D.Registration>, trows: map<int, DB.DeviceRow>,
                           f: Renaming, user: int, rm: seq<D.Registration>, ids: seq<int>) {
    && Related(D.AsDevices(mrows), DB.AsDevices(trows), f)
    && (forall id :: id in mrows ==> mrows[id].id == id)
    && (forall id :: id in trows ==> T.ValidRow(authority, trows[id]))
    && D.ListsActive(mrows, user, rm) && T.ActiveRows(trows, user, ids)
  }

  /** A memory list and the table's list answer alike if and only if the user is one an account could have. */
  lemma ListRefines(authority: D.Authority, mrows: map<int, D.Registration>, trows: map<int, DB.DeviceRow>, f: Renaming,
                    user: int, rm: seq<D.Registration>, ids: seq<int>)
    requires Listings(authority, mrows, trows, f, user, rm, ids)
    ensures SameList(rm, T.ListOutcome(trows, user, ids), f) <==> user > 0
  {
    hide T.ValidRow, T.AsRegistration, D.AsDevices, DB.AsDevices, InTable, InMemory;
    if user > 0 {
      ListedAlike(authority, mrows, trows, f, user, rm, ids);
      var out := T.Reread(trows, ids);
      assert T.ListOutcome(trows, user, ids) == Ok(out);
      forall p | 0 <= p < |rm| ensures InTable(rm[p], out, f) {
        ListedInTable(authority, mrows, trows, f, user, rm, ids, p);
      }
      forall q | 0 <= q < |out| ensures InMemory(rm, out[q], f) {
        ListedInMemory(authority, mrows, trows, f, user, rm, ids, q);
      }
    }
  }

  lemma ListedAlike(authority: D.Authority, mrows: map<int, D.Registration>, trows: map<int, DB.DeviceRow>, f: Renaming,
                    user: int, rm: seq<D.Registration>, ids: seq<int>)
    requires Listings(authority, mrows, trows, f, user, rm, ids)
    ensures |rm| == |ids|
  {
    hide T.ValidRow, T.AsRegistration, D.AsDevices, DB.AsDevices, InTable, InMemory;
    forall p | 0 <= p < |rm| ensures rm[p].id in f && f[rm[p].id] in ids {
      ListedInTable(authority, mrows, trows, f, user, rm, ids, p);
    }
    var forth := seq(|rm|, p requires 0 <= p < |rm| && rm[p].id in f => f[rm[p].id]);
    forall p, q | 0 <= p < q < |rm| ensures rm[p].id != rm[q].id {
      assert rm[p] in rm && rm[q] in rm;
    }
    Pigeonhole(forth, ids);
    var listed := seq(|rm|, p requires 0 <= p < |rm| => rm[p].id);
    forall q | 0 <= q < |ids| ensures Hit(f, ids[q]) && Preimage(f, ids[q]) in listed {
      ListedInMemory(authority, mrows, trows, f, user, rm, ids, q);
      var p :| 0 <= p < |rm| && rm[p].id == Preimage(f, ids[q]);
      assert listed[p] == rm[p].id;
    }
    var back := seq(|ids|, q requires 0 <= q < |ids| && Hit(f, ids[q]) => Preimage(f, ids[q]));
    NewestFirstIsDistinct(trows, ids);
    Pigeonhole(back, listed);
  }

  /**
   The condition cannot be dropped: id 0 and user 0, which no account or registration has, are merely not found in
   memory and refused by the table.
   */
  lemma LookupsDivergeAtZero()
    ensures Related(map[], map[], map[]) && Corresponds(map[], map[], map[], 0, 0)
    ensures D.RegistrationOf(map[], 0) == None && T.GetOutcome(map[], 0) == Err(T.Input)
    ensures D.ListsActive(map[], 0, []) && T.ActiveRows(map[], 0, []) && T.ListOutcome(map[], 0, []) == Err(T.Input)
  {
  }

  // Whole runs

  /**
   One call made to both stores. `id` and `tableId` name the same registration, `newM` and `newT` are the ids the stores
   would hand out, and `users` are the accounts there are at the time.
   */
  datatype Call =
    | Register(now: Time, users: set<int>, user: int, sub: D.Subscription, platform: string, newM: int, newT: int)
    | Replace(now: Time, user: int, id: int, tableId: int, sub: D.Subscription, platform: string, newM: int, newT: int)
    | Revoke(now: Time, user: int, id: int, tableId: int)
    | Get(id: int, tableId: int)
    | ListActive(user: int)

  datatype Answer =
    | Changed(id: int)
    | Known(id: int, device: Device)
    | Absent
    | Listed(devices: Devices)
    | Refused(error: T.Error)

  /** The registrations of both stores and the renaming between them. */
  datatype Pair = Pair(m: Devices, t: Devices, f: Renaming)

  function ChangeAnswer(r: Result<int, T.Error>): Answer {
    match r
    case Ok(id) => Changed(id)
    case Err(e) => Refused(e)
  }

  function Fetch(d: Devices, id: int): Answer {
    if id in d then Known(id, d[id]) else Absent
  }

  function ActiveOf(d: Devices, user: int): Devices {
    map id | id in d && Lists(d, id, user) :: d[id]
  }

  function TableFetch(t: Devices, id: int): Answer {
    if id <= 0 then Refused(T.Input) else Fetch(t, id)
  }

  function TableListing(t: Devices, user: int): Answer {
    if user <= 0 then Refused(T.Input) else Listed(ActiveOf(t, user))
  }

  ghost function MemoryCall(authority: D.Authority, m: Devices, c: Call): (Devices, Answer) {
    match c
    case Register(now, _, user, sub, platform, newM, _) =>
      var o := MemoryRegister(authority, m, now, user, sub, platform, newM); (o.0, ChangeAnswer(o.1))
    case Replace(now, user, id, _, sub, platform, newM, _) =>
      var o := MemoryReplace(authority, m, now, user, id, sub, platform, newM); (o.0, ChangeAnswer(o.1))
    case Revoke(now, user, id, _) => var o := MemoryRevoke(m, now, user, id); (o.0, ChangeAnswer(o.1))
    case Get(id, _) => (m, Fetch(m, id))
    case ListActive(user) => (m, Listed(ActiveOf(m, user)))
  }

  ghost function TableCall(authority: D.Authority, t: Devices, c: Call): (Devices, Answer) {
    match c
    case Register(now, users, user, sub, platform, _, newT) =>
      var o := T.RegisterOutcome(authority, users, t, now, user, sub, platform, newT); (o.0, ChangeAnswer(o.1))
    case Replace(now, user, _, tableId, sub, platform, _, newT) =>
      var o := T.ReplaceOutcome(authority, t, now, user, tableId, sub, platform, newT); (o.0, ChangeAnswer(o.1))
    case Revoke(now, user, _, tableId) => var o := T.RevokeOutcome(t, now, user, tableId); (o.0, ChangeAnswer(o.1))
    case Get(_, tableId) => (t, TableFetch(t, tableId))
    case ListActive(user) => (t, TableListing(t, user))
  }

  /** A registration the memory store inserts is from now on known by its id in the table. */
  ghost function After(authority: D.Authority, p: Pair, c: Call): Pair {
    var mo := MemoryCall(authority, p.m, c);
    var inserts := (c.Register? || c.Replace?) && mo.1 == Changed(c.newM);
    Pair(mo.0, TableCall(authority, p.t, c).0, if inserts then p.f[c.newM := c.newT] else p.f)
  }

  /** The call is made with corresponding ids, and each store hands out fresh ones. */
  ghost predicate Enabled(p: Pair, c: Call) {
    && (c.Replace? || c.Revoke? || c.Get? ==> Corresponds(p.m, p.t, p.f, c.id, c.tableId))
    && (c.Register? || c.Replace? ==> FreshId(p.m, c.newM) && FreshId(p.t, c.newT))
  }

  ghost predicate HitIn(a: Devices, f: Renaming, k: int) {
    exists i :: i in a && i in f && f[i] == k
  }

  /** The same registrations under other ids. */
  ghost predicate SameDevices(a: Devices, b: Devices, f: Renaming) {
    && (forall i :: i in a ==> i in f && f[i] in b && b[f[i]] == Renamed(f, a[i]))
    && forall k :: k in b ==> HitIn(a, f, k)
  }

  ghost predicate Alike(x: Answer, y: Answer, f: Renaming) {
    match x
    case Changed(i) => y.Changed? && i in f && f[i] == y.id
    case Known(i, d) => y.Known? && i in f && f[i] == y.id && y.device == Renamed(f, d)
    case Absent => y.Absent?
    case Listed(a) => y.Listed? && SameDevices(a, y.devices, f)
    case Refused(e) => y == Refused(e)
  }

  ghost predicate AnswersAlike(authority: D.Authority, p: Pair, c: Call) {
    Alike(MemoryCall(authority, p.m, c).1, TableCall(authority, p.t, c).1, After(authority, p, c).f)
  }

  /**
   What a caller can check before a call: it is invalid in both stores, or nothing the table alone checks refuses it.
   */
  ghost predicate Compatible(authority: D.Authority, t: Devices, c: Call) {
    match c
    case Register(now, users, user, sub, platform, _, _) =>
      || D.Complaint(authority, user, sub, platform).Some?
      || (!IsZero(now) && T.StoredEndpoint(sub.endpoint) && (Holder(t, sub.endpoint).Some? || user in users))
    case Replace(now, user, _, tableId, sub, platform, _, _) =>
      || D.Complaint(authority, user, sub, platform).Some?
      || (!IsZero(now) && tableId > 0
          && (Supersedes(t, user, tableId, sub.endpoint) ==> T.StoredEndpoint(sub.endpoint)))
    case Revoke(now, user, _, tableId) => user <= 0 || (tableId > 0 && !IsZero(now))
    case Get(_, tableId) => tableId > 0
    case ListActive(user) => user > 0
  }

  /** A registration as a caller of either store reads it. */
  function Viewed(r: Option<D.Registration>): Answer {
    match r
    case Some(reg) => Known(reg.id, D.AsDevice(reg))
    case None => Absent
  }

  ghost predicate ListedAs(out: seq<D.Registration>, d: Devices) {
    && |out| == |d|
    && (forall k :: 0 <= k < |out| ==> out[k].id in d && d[out[k].id] == D.AsDevice(out[k]))
    && forall id :: id in d ==> IdListed(out, id)
  }

  ghost predicate IdListed(out: seq<D.Registration>, id: int) {
    exists k :: 0 <= k < |out| && out[k].id == id
  }

  ghost predicate Matched(p: Pair) {
    Related(p.m, p.t, p.f) && Inv(p.m) && Inv(p.t)
  }

  ghost predicate LockstepRun(authority: D.Authority, s: seq<Pair>, calls: seq<Call>) {
    && |s| == |calls| + 1 && Matched(s[0])
    && forall k :: 0 <= k < |calls| ==> Enabled(s[k], calls[k]) && s[k + 1] == After(authority, s[k], calls[k])
  }

  /** Lookups in a run are those of the stores' own rows. */
  lemma GetIsLookup(authority: D.Authority, mrows: map<int, D.Registration>, trows: map<int, DB.DeviceRow>, i: int,
                    j: int)
    requires forall id :: id in mrows ==> mrows[id].id == id
    requires forall id :: id in trows ==> T.ValidRow(authority, trows[id])
    ensures Viewed(D.RegistrationOf(mrows, i)) == Fetch(D.AsDevices(mrows), i)
    ensures TableFetch(DB.AsDevices(trows), j) ==
            match T.GetOutcome(trows, j) case Ok(r) => Viewed(r) case Err(e) => Refused(e)
  {
    hide T.ValidRow, T.AsRegistration, D.AsDevice, DB.AsDevice;
    if j in trows {
      T.ScanNeverCorrupt(authority, j, trows[j]);
    }
  }

  lemma SameSize(out: seq<D.Registration>, d: Devices)
    requires forall k, l :: 0 <= k < l < |out| ==> out[k].id != out[l].id
    requires forall k :: 0 <= k < |out| ==> out[k].id in d
    requires forall id :: id in d ==> IdListed(out, id)
    ensures |out| == |d|
  {
    var ids := seq(|out|, k requires 0 <= k < |out| => out[k].id);
    forall k | 0 <= k < |ids| ensures ids[k] in d {
      assert ids[k] == out[k].id;
    }
    NoDuplicatesCardinality(ids);
    assert (set x | x in ids) == d.Keys by {
      forall id | id in d.Keys ensures id in ids {
        assert IdListed(out, id);
        var k :| 0 <= k < |out| && out[k].id == id;
        assert ids[k] == id;
      }
    }
  }

  /** Listings in a run are those of the stores' own rows, each registration once. */
  lemma ListIsListing(authority: D.Authority, mrows: map<int, D.Registration>, trows: map<int, DB.DeviceRow>, user: int,
                      rm: seq<D.Registration>, ids: seq<int>)
    requires forall id :: id in mrows ==> mrows[id].id == id
    requires forall id :: id in trows ==> T.ValidRow(authority, trows[id])
    requires D.ListsActive(mrows, user, rm) && T.ActiveRows(trows, user, ids)
    ensures ListedAs(rm, ActiveOf(D.AsDevices(mrows), user))
    ensures match T.ListOutcome(trows, user, ids)
            case Ok(out) => user > 0 && ListedAs(out, ActiveOf(DB.AsDevices(trows), user))
            case Err(e) => TableListing(DB.AsDevices(trows), user) == Refused(e)
  {
    hide T.ValidRow, T.AsRegistration, DB.AsDevice;
    MemoryListing(mrows, user, rm);
    RowListing(authority, trows, user, ids);
  }

  lemma MemoryListing(mrows: map<int, D.Registration>, user: int, rm: seq<D.Registration>)
    requires forall id :: id in mrows ==> mrows[id].id == id
    requires D.ListsActive(mrows, user, rm)
    ensures ListedAs(rm, ActiveOf(D.AsDevices(mrows), user))
  {
    var d := ActiveOf(D.AsDevices(mrows), user);
    forall k | 0 <= k < |rm| ensures rm[k].id in d && d[rm[k].id] == D.AsDevice(rm[k]) {
      assert rm[k] in rm;
    }
    forall k, l | 0 <= k < l < |rm| ensures rm[k].id != rm[l].id {
      assert rm[k] in rm && rm[l] in rm;
    }
    forall id | id in d ensures IdListed(rm, id) {
      var reg := mrows[id];
      assert reg in rm;
      var k :| 0 <= k < |rm| && rm[k] == reg;
    }
    SameSize(rm, d);
  }

  lemma RowListing(authority: D.Authority, trows: map<int, DB.DeviceRow>, user: int, ids: seq<int>)
    requires forall id :: id in trows ==> T.ValidRow(authority, trows[id])
    requires T.ActiveRows(trows, user, ids)
    ensures ListedAs(T.Reread(trows, ids), ActiveOf(DB.AsDevices(trows), user))
  {
    hide T.ValidRow, T.AsRegistration, D.AsDevice;
    var out, d := T.Reread(trows, ids), ActiveOf(DB.AsDevices(trows), user);
    forall k | 0 <= k < |out| ensures out[k].id == ids[k] && ids[k] in d && d[ids[k]] == D.AsDevice(out[k]) {
      var id := ids[k];
      assert id in ids;
      T.ScanNeverCorrupt(authority, id, trows[id]);
    }
    NewestFirstIsDistinct(trows, ids);
    forall id | id in d ensures IdListed(out, id) {
      assert id in ids;
      var k :| 0 <= k < |ids| && ids[k] == id;
      assert out[k].id == id;
    }
    SameSize(out, d);
  }

  lemma LookupsAlike(p: Pair, id: int, tableId: int)
    requires Matched(p) && Corresponds(p.m, p.t, p.f, id, tableId)
    ensures Alike(Fetch(p.m, id), TableFetch(p.t, tableId), p.f) <==> tableId > 0
  {
    hide UniqueEndpoints, LinksForward, LinksUnshared;
    if id in p.m {
      RelatedAt(p.m, p.t, p.f, id);
    }
  }

  lemma ListingsAlike(p: Pair, user: int)
    requires Matched(p)
    ensures Alike(Listed(ActiveOf(p.m, user)), TableListing(p.t, user), p.f) <==> user > 0
  {
    hide Inv;
    var a, b := ActiveOf(p.m, user), ActiveOf(p.t, user);
    forall k | k in b ensures HitIn(a, p.f, k) {
      assert Hit(p.f, k);
      var i :| i in p.f && p.f[i] == k;
      assert i in a;
    }
  }

  lemma CallRefines(authority: D.Authority, p: Pair, c: Call)
    requires Matched(p) && Enabled(p, c)
    ensures AnswersAlike(authority, p, c) <==> Compatible(authority, p.t, c)
    ensures AnswersAlike(authority, p, c) ==> Matched(After(authority, p, c))
  {
    hide Holder, Related, Inv, Registered, Replaced, Corresponds, Supersedes, T.StoredEndpoint, D.Complaint,
         SameDevices, ActiveOf;
    match c
    case Register(now, users, user, sub, platform, newM, newT) =>
      RegisterRefines(authority, users, p.m, p.t, p.f, now, user, sub, platform, newM, newT);
      ApplyKeepsInv(p.m, Op.Register(now, user, D.BindingOf(sub, platform), newM));
      ApplyKeepsInv(p.t, Op.Register(DB.Micros(now), user, D.BindingOf(sub, platform), newT));
    case Replace(now, user, id, tableId, sub, platform, newM, newT) =>
      ReplaceRefines(authority, p.m, p.t, p.f, now, user, id, tableId, sub, platform, newM, newT);
      ApplyKeepsInv(p.m, Op.Replace(now, user, id, D.BindingOf(sub, platform), newM));
      ApplyKeepsInv(p.t, Op.Replace(DB.Micros(now), user, tableId, D.BindingOf(sub, platform), newT));
    case Revoke(now, user, id, tableId) =>
      RevokeRefines(p.m, p.t, p.f, now, user, id, tableId);
      ApplyKeepsInv(p.m, Op.Revoke(now, user, id));
      ApplyKeepsInv(p.t, Op.Revoke(DB.Micros(now), user, tableId));
    case Get(id, tableId) => LookupsAlike(p, id, tableId);
    case ListActive(user) => ListingsAlike(p, user);
  }

  /**
   Started alike and given the same calls, the stores answer every call alike if and only if every call was compatible.
   */
  lemma {:induction false} RunRefines(authority: D.Authority, s: seq<Pair>, calls: seq<Call>, n: nat)
    requires LockstepRun(authority, s, calls) && n <= |calls|
    ensures (forall k :: 0 <= k < n ==> AnswersAlike(authority, s[k], calls[k])) <==>
            (forall k :: 0 <= k < n ==> Compatible(authority, s[k].t, calls[k]))
    ensures (forall k :: 0 <= k < n ==> AnswersAlike(authority, s[k], calls[k])) ==> Matched(s[n])
  {
    hide Matched, AnswersAlike, Compatible, Enabled, After;
    if n > 0 {
      RunRefines(authority, s, calls, n - 1);
      if forall k :: 0 <= k < n - 1 ==> AnswersAlike(authority, s[k], calls[k]) {
        CallRefines(authority, s[n - 1], calls[n - 1]);
      }
    }
  }

  // The stores themselves in lockstep

  function ErrorClass(e: D.Error): T.Error {
    match e
    case NotFound => T.NotFound
    case Forbidden => T.Forbidden
    case _ => T.Input
  }

  function ClassOf(r: Result<D.Registration, D.Error>): Result<int, T.Error> {
    match r
    case Ok(reg) => Ok(reg.id)
    case Err(e) => Err(ErrorClass(e))
  }

  lemma ComplaintsAreInput(authority: D.Authority, user: int, sub: D.Subscription, platform: string)
    ensures match D.Complaint(authority, user, sub, platform) case Some(e) => ErrorClass(e) == T.Input case None => true
  {
  }

  ghost predicate InStep(mem: D.Store, table: T.Postgres, f: Renaming)
    reads mem, table.db
  {
    mem.Valid() && table.Valid() && mem.authority == table.authority && Related(mem.View(), table.View(), f)
  }

  /** Both stores register; unless the database was unreachable, they agree exactly when `RegisterRefines` says so. */
  method RegisterBoth(mem: D.Store, table: T.Postgres, ghost f: Renaming, now: Time, user: int, sub: D.Subscription,
                      platform: string)
    returns (rm: Result<D.Registration, D.Error>, rt: Result<D.Registration, T.Error>, ghost g: Renaming)
    requires InStep(mem, table, f)
    modifies mem, table.db
    ensures mem.Valid() && table.Valid()
    ensures rt != Err(T.Unavailable) ==>
              (SameAnswer(ClassOf(rm), T.IdOf(rt), g) <==>
                || D.Complaint(mem.authority, user, sub, platform).Some?
                || (!IsZero(now) && T.StoredEndpoint(sub.endpoint)
                    && (old(Holder(table.View(), sub.endpoint)).Some? || user in table.db.users)))
    ensures rt != Err(T.Unavailable) && SameAnswer(ClassOf(rm), T.IdOf(rt), g) ==> InStep(mem, table, g)
  {
    hide Holder, Inv, Related, D.Complaint, T.StoredEndpoint, T.ValidRow, Registered, D.AsDevices, DB.AsDevices;
    ghost var m, t := mem.View(), table.View();
    ghost var newM, newT := mem.nextID + 1, table.db.deviceSeq + 1;
    ComplaintsAreInput(mem.authority, user, sub, platform);
    RegisterRefines(mem.authority, table.db.users, m, t, f, now, user, sub, platform, newM, newT);
    ghost var mo := MemoryRegister(mem.authority, m, now, user, sub, platform, newM);
    rm := mem.Register(now, user, sub, platform);
    rt := table.Register(now, user, sub, platform);
    g := Extended(f, mo.1, newM, newT);
  }

  method ReplaceBoth(mem: D.Store, table: T.Postgres, ghost f: Renaming, now: Time, user: int, i: int, j: int,
                     sub: D.Subscription, platform: string)
    returns (rm: Result<D.Registration, D.Error>, rt: Result<D.Registration, T.Error>, ghost g: Renaming)
    requires InStep(mem, table, f) && Corresponds(mem.View(), table.View(), f, i, j)
    modifies mem, table.db
    ensures mem.Valid() && table.Valid()
    ensures rt != Err(T.Unavailable) ==>
              (SameAnswer(ClassOf(rm), T.IdOf(rt), g) <==>
                || D.Complaint(mem.authority, user, sub, platform).Some?
                || (!IsZero(now) && j > 0
                    && (old(Supersedes(table.View(), user, j, sub.endpoint)) ==> T.StoredEndpoint(sub.endpoint))))
    ensures rt != Err(T.Unavailable) && SameAnswer(ClassOf(rm), T.IdOf(rt), g) ==> InStep(mem, table, g)
  {
    hide Holder, Inv, Related, D.Complaint, T.StoredEndpoint, T.ValidRow, Replaced, Supersedes, Corresponds,
         D.AsDevices, DB.AsDevices;
    ghost var m, t := mem.View(), table.View();
    ghost var newM, newT := mem.nextID + 1, table.db.deviceSeq + 1;
    ComplaintsAreInput(mem.authority, user, sub, platform);
    ReplaceRefines(mem.authority, m, t, f, now, user, i, j, sub, platform, newM, newT);
    ghost var mo := MemoryReplace(mem.authority, m, now, user, i, sub, platform, newM);
    rm := mem.Replace(now, user, i, sub, platform);
    rt := table.Replace(now, user, j, sub, platform);
    g := Extended(f, mo.1, newM, newT);
  }

  /** The two stores' answers to a revocation, which name no registration. */
  predicate SameVerdict(rm: Result<(), D.Error>, rt: Result<(), T.Error>) {
    rt == match rm case Ok(_) => Ok(()) case Err(e) => Err(ErrorClass(e))
  }

  method RevokeBoth(mem: D.Store, table: T.Postgres, ghost f: Renaming, now: Time, user: int, i: int, j: int)
    returns (rm: Result<(), D.Error>, rt: Result<(), T.Error>)
    requires InStep(mem, table, f) && Corresponds(mem.View(), table.View(), f, i, j)
    modifies mem, table.db
    ensures mem.Valid() && table.Valid()
    ensures rt != Err(T.Unavailable) ==> (SameVerdict(rm, rt) <==> user <= 0 || (j > 0 && !IsZero(now)))
    ensures rt != Err(T.Unavailable) && SameVerdict(rm, rt) ==> InStep(mem, table, f)
  {
    hide Inv, Related, T.ValidRow, Corresponds, D.AsDevices, DB.AsDevices;
    ghost var m, t := mem.View(), table.View();
    RevokeRefines(m, t, f, now, user, i, j);
    rm := mem.Revoke(now, user, i);
    rt := table.Revoke(now, user, j);
  }

  /**
   Both stores look up; unless the database was unreachable, they agree exactly when the id is one a table could hold.
   */
  method GetBoth(mem: D.Store, table: T.Postgres, ghost f: Renaming, i: int, j: int)
    returns (rm: Option<D.Registration>, rt: Result<Option<D.Registration>, T.Error>)
    requires InStep(mem, table, f) && Corresponds(mem.View(), table.View(), f, i, j)
    ensures rt != Err(T.Unavailable) ==> (SameLookup(rm, rt, f) <==> j > 0)
  {
    hide Related, T.ValidRow, SameLookup, T.GetOutcome, UniqueEndpoints, LinksForward, LinksUnshared;
    GetRefines(mem.authority, mem.byID, table.db.devices, f, i, j);
    rm := mem.Get(i);
    rt := table.Get(j);
  }

  /**
   Both stores list; unless the database was unreachable, they agree exactly when the user is one an account could have.
   */
  method ListActiveBoth(mem: D.Store, table: T.Postgres, ghost f: Renaming, user: int, ids: seq<int>)
    returns (rm: seq<D.Registration>, rt: Result<seq<D.Registration>, T.Error>)
    requires InStep(mem, table, f) && T.ActiveRows(table.db.devices, user, ids)
    ensures rt != Err(T.Unavailable) ==> (SameList(rm, rt, f) <==> user > 0)
  {
    hide Related, T.ValidRow, SameList, T.ListOutcome, UniqueEndpoints, LinksForward, LinksUnshared, T.ActiveRows,
         D.ListsActive;
    rm := mem.ListActive(user);
    rt := table.ListActive(user, ids);
    ListRefines(mem.authority, mem.byID, table.db.devices, f, user, rm, ids);
  }
}
