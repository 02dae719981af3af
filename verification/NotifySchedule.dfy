/**
 When an entry may be taken next, what its holder can do with it, and how it ends, over every run. Everything is stated
 through the calls that were made and the answers they got.
 */
module NotifySchedule {
  import opened Prelude
  import opened NotifyOutbox
  import opened NotifyProtocol
  import opened NotifyFencing
  import DeviceRegistry
  import NotifyDelivery
  import DB = NotifyDatabase
  import Outcomes = NotifyOutcome

  /** The step's transition went through on this row: the call was answered without an error. */
  predicate GoesThrough(db: Db, op: Op, id: int) {
    match op
    case Update(target, c) => target == id && Performed(db.t.outbox, id, c).1.Ok?
    case Record(target, c, d) => target == id && Outcomes.Recorded(db.t, id, c, d).1.Ok?
    case RecordUnauthorized(now, target, token, d, user, dev) =>
      target == id && Outcomes.RecordedUnauthorized(db.t, now, id, token, d, user, dev).1.Ok?
    case _ => false
  }

  function Transition(op: Op): Change
    requires op.Update? || op.Record? || op.RecordUnauthorized?
  {
    match op
    case Update(_, c) => c
    case Record(_, c, _) => c
    case RecordUnauthorized(now, _, token, _, _, _) => Change.DeadLetterClaimed(now, token)
  }

  lemma GoneThrough(db: Db, op: Op, id: int)
    requires GoesThrough(db, op, id)
    ensures op.Update? || op.Record? || op.RecordUnauthorized?
    ensures Succeeds(db.t.outbox, id, Transition(op)) && id in db.t.outbox && Where(db.t.outbox[id], Transition(op))
    ensures id in Step(db, op).t.outbox && Step(db, op).t.outbox[id] == Set(db.t.outbox[id], Transition(op))
  {
    hide Where, Set, Change.WellFormed, NotifyDelivery.Recordable;
  }

  /** A row that a step changes is one its transition went through on. */
  lemma ChangedGoesThrough(db: Db, op: Op, id: int)
    requires id in db.t.outbox && Enabled(db, op)
    ensures id in Step(db, op).t.outbox
    ensures Step(db, op).t.outbox[id] == db.t.outbox[id] || GoesThrough(db, op, id)
  {
    hide Where, Set, Change.WellFormed, NotifyDelivery.Recordable, RowFor, DeviceRegistry.Apply, EnqueueWellFormed;
  }

  // What one call answers

  /**
   A store call that goes through answers with the row the table then holds; one that does not leaves the table alone,
   and says whether it was malformed, found no row, or found one its condition does not admit.
   */
  lemma AnswersAsStored(o: Outbox, id: int, c: Change)
    ensures var (after, r) := Performed(o, id, c);
            match r
            case Ok(e) => id in o && id in after && after == o[id := e]
            case Err(e) =>
              && after == o
              && e == if id <= 0 || !c.WellFormed() then Error.Input else if id !in o then NotFound else Conflict
  {
    hide Where, Set, Change.WellFormed;
  }

  // When an entry is due

  /** The time an entry is due from once the step has enqueued it, put it back or leased it out. */
  ghost predicate DueFrom(db: Db, op: Op, id: int, at: Time) {
    match op
    case Enqueue(_, _, _, _, _, first, _, newId) =>
      id == newId && id !in db.t.outbox && id in Step(db, op).t.outbox && at == first
    case Update(_, Claim(now, lease, _)) => GoesThrough(db, op, id) && at == now + lease
    case Update(_, ReleaseClaim(now, _)) => GoesThrough(db, op, id) && at == now
    case Update(_, RescheduleClaim(_, next, _)) => GoesThrough(db, op, id) && at == next
    case Update(_, RecordFailedAttempt(now, next, _)) => StillLive(db, op, id, now) && at == next
    case Record(_, RecordFailedAttempt(now, next, _), _) => StillLive(db, op, id, now) && at == next
    case _ => false
  }

  /** The failed attempt went through before the entry's expiry and left it another one. */
  predicate StillLive(db: Db, op: Op, id: int, now: Time) {
    && GoesThrough(db, op, id) && id in db.t.outbox
    && now < db.t.outbox[id].expiresAt && db.t.outbox[id].attemptCount + 1 < db.t.outbox[id].maxAttempts
  }

  lemma StepSetsDue(db: Db, op: Op, id: int, at: Time)
    requires DueFrom(db, op, id, at)
    ensures id in Step(db, op).t.outbox
    ensures var e := Step(db, op).t.outbox[id]; e.state.Pending? && e.nextAttemptAt == Some(at)
  {
    hide Step, GoesThrough;
    if op.Enqueue? {
      StepOnNewRow(db, op, id);
    } else {
      GoneThrough(db, op, id);
    }
  }

  /**
   Nobody comes early and nobody is kept waiting: from the step that set an entry's due time until some step changes the
   entry, it is due exactly from that time on. A claim before then leaves the tables as they are; a well-formed claim
   with a new token from then on takes it.
   */
  lemma DueExactly(s: seq<Db>, ops: seq<Op>, i: nat, j: nat, id: int, at: Time, now: Time, lease: Time, token: Token)
    requires IsRun(s, ops) && i < j < |s| && DueFrom(s[i], ops[i], id, at)
    requires id in s[i + 1].t.outbox && id in s[j].t.outbox && s[j].t.outbox[id] == s[i + 1].t.outbox[id]
    ensures Due(s[j].t.outbox[id], now) <==> at <= now
    ensures now < at ==> Step(s[j], Op.Update(id, Change.Claim(now, lease, token))) == s[j]
    ensures at <= now && Change.Claim(now, lease, token).WellFormed() ==>
              match Performed(s[j].t.outbox, id, Change.Claim(now, lease, token)).1
              case Ok(e) => e == s[j].t.outbox[id].(claimToken := Some(token), nextAttemptAt := Some(now + lease))
              case Err(_) => false
  {
    hide Step, Enabled, Initial, DeviceRegistry.Inv, DueFrom, RowInv, UniquePairs, ClaimsAsIssued;
    assert Follows(s, ops, i);
    StepSetsDue(s[i], ops[i], id, at);
    NotifyProtocol.RunInv(s, ops, j);
    if now < at {
      EarlyClaim(s[j], id, now, lease, token);
    }
  }

  lemma EarlyClaim(db: Db, id: int, now: Time, lease: Time, token: Token)
    requires id in db.t.outbox && !Due(db.t.outbox[id], now)
    ensures Step(db, Op.Update(id, Change.Claim(now, lease, token))) == db
  {
  }

  /** A lease ends after it began; a deferral is for later, but not past the entry's expiry. */
  lemma DueLater(db: Db, op: Op, id: int, at: Time)
    requires DueFrom(db, op, id, at) && op.Update? && (op.c.Claim? || op.c.RescheduleClaim?)
    ensures op.c.now < at && (op.c.RescheduleClaim? ==> id in db.t.outbox && at <= db.t.outbox[id].expiresAt)
  {
    hide Step, GoesThrough;
    GoneThrough(db, op, id);
  }

  /**
   Until some step changes an entry since its claim, every well-formed call with the claim's token goes through, except
   that only an expired entry can be expired and none can be put off past its expiry.
   */
  lemma HolderExactly(s: seq<Db>, ops: seq<Op>, i: nat, j: nat, id: int, c: Change)
    requires IsRun(s, ops) && i < j < |s| && ops[i].Update? && ops[i].c.Claim? && GoesThrough(s[i], ops[i], id)
    requires id in s[i + 1].t.outbox && id in s[j].t.outbox && s[j].t.outbox[id] == s[i + 1].t.outbox[id]
    requires c.Fenced() && c.token == ops[i].c.token && c.WellFormed()
    ensures Performed(s[j].t.outbox, id, c).1.Ok? <==>
            && (c.MarkExpiredClaimed? ==> s[j].t.outbox[id].expiresAt <= c.now)
            && (c.RescheduleClaim? ==> c.next <= s[j].t.outbox[id].expiresAt)
  {
    hide Step, Enabled, Initial, DeviceRegistry.Inv, GoesThrough, RowInv, UniquePairs, ClaimsAsIssued,
         Change.WellFormed;
    assert Follows(s, ops, i);
    GoneThrough(s[i], ops[i], id);
    NotifyProtocol.RunInv(s, ops, j);
  }

  /**
   An entry nobody has claimed since it was enqueued or put back can be canceled, and expired once it is past its
   expiry.
   */
  lemma UnclaimedExactly(s: seq<Db>, ops: seq<Op>, i: nat, j: nat, id: int, at: Time, c: Change)
    requires IsRun(s, ops) && i < j < |s| && DueFrom(s[i], ops[i], id, at) && !(ops[i].Update? && ops[i].c.Claim?)
    requires id in s[i + 1].t.outbox && id in s[j].t.outbox && s[j].t.outbox[id] == s[i + 1].t.outbox[id]
    requires !c.Claim? && c.WellFormed()
    ensures Performed(s[j].t.outbox, id, c).1.Ok? <==>
            c.Cancel? || (c.MarkExpired? && s[j].t.outbox[id].expiresAt <= c.now)
  {
    hide Step, Enabled, Initial, DeviceRegistry.Inv, RowInv, UniquePairs, ClaimsAsIssued, Change.WellFormed, DueFrom;
    assert Follows(s, ops, i);
    UnclaimedThen(s[i], ops[i], id, at);
    NotifyProtocol.RunInv(s, ops, j);
  }

  lemma UnclaimedThen(db: Db, op: Op, id: int, at: Time)
    requires DueFrom(db, op, id, at) && !(op.Update? && op.c.Claim?)
    ensures id in Step(db, op).t.outbox
    ensures Step(db, op).t.outbox[id].state.Pending? && Step(db, op).t.outbox[id].claimToken.None?
  {
    hide Step, GoesThrough;
    if op.Enqueue? {
      StepOnNewRow(db, op, id);
    } else {
      GoneThrough(db, op, id);
    }
  }

  // How an entry ends

  /** The state a transition is for, given the row it finds. */
  function StateAfter(e: Entry, c: Change): State {
    match c
    case MarkSent(_, _) => Sent
    case Cancel(_) => Canceled
    case CancelClaimed(_, _) => Canceled
    case MarkExpired(_) => Expired
    case MarkExpiredClaimed(_, _) => Expired
    case DeadLetterClaimed(_, _) => DeadLetter
    case RecordFailedAttempt(now, _, _) =>
      if now >= e.expiresAt then Expired else if e.attemptCount + 1 >= e.maxAttempts then DeadLetter else Pending
    case _ => Pending
  }

  predicate EndsAs(db: Db, op: Op, id: int, end: State) {
    id in db.t.outbox && GoesThrough(db, op, id) && StateAfter(db.t.outbox[id], Transition(op)) == end
  }

  ghost predicate EndedAs(s: seq<Db>, ops: seq<Op>, n: nat, id: int, end: State)
    requires |s| == |ops| + 1 && n < |s|
  {
    exists i :: 0 <= i < n && EndsAs(s[i], ops[i], id, end)
  }

  lemma StepEnds(db: Db, op: Op, id: int, end: State)
    requires Enabled(db, op) && !end.Pending? && id in Step(db, op).t.outbox
    ensures Step(db, op).t.outbox[id].state == end <==>
            (id in db.t.outbox && db.t.outbox[id].state == end) || EndsAs(db, op, id, end)
  {
    hide Step, GoesThrough, Enabled;
    if id in db.t.outbox {
      ChangedGoesThrough(db, op, id);
      if GoesThrough(db, op, id) {
        GoneThrough(db, op, id);
      }
    } else {
      StepOnNewRow(db, op, id);
    }
  }

  /** An entry is in a terminal state if and only if a transition to that state went through on it. */
  lemma {:induction false} EndedExactly(s: seq<Db>, ops: seq<Op>, n: nat, id: int, end: State)
    requires IsRun(s, ops) && n < |s| && !end.Pending?
    ensures (id in s[n].t.outbox && s[n].t.outbox[id].state == end) <==> EndedAs(s, ops, n, id, end)
  {
    hide Step, Enabled, EndsAs, DeviceRegistry.Inv;
    if n > 0 {
      EndedExactly(s, ops, n - 1, id, end);
      assert Follows(s, ops, n - 1);
      assert EndedAs(s, ops, n, id, end) <==> EndedAs(s, ops, n - 1, id, end) || EndsAs(s[n - 1], ops[n - 1], id, end);
      if id in s[n].t.outbox {
        StepEnds(s[n - 1], ops[n - 1], id, end);
      } else {
        NeverThere(s, ops, n, id, end);
      }
    }
  }

  lemma NeverThere(s: seq<Db>, ops: seq<Op>, n: nat, id: int, end: State)
    requires IsRun(s, ops) && n < |s| && id !in s[n].t.outbox
    ensures !EndedAs(s, ops, n, id, end)
  {
    hide Step, Enabled, GoesThrough, DeviceRegistry.Inv, Initial, Follows;
    forall i | 0 <= i < n ensures !EndsAs(s[i], ops[i], id, end) {
      if id in s[i].t.outbox {
        RowsPersist(s, ops, i, n, id);
      }
    }
  }

  /** Whoever expires an entry does so at or after its expiry. */
  lemma ExpiryIsLate(db: Db, op: Op, id: int)
    requires EndsAs(db, op, id, Expired)
    ensures Transition(op).now >= db.t.outbox[id].expiresAt
  {
    hide GoesThrough, Step;
    GoneThrough(db, op, id);
  }

  // Where entries come from

  /** The row's event is matched, and its device is registered to its user. */
  ghost predicate RightfulRow(db: Db, e: Entry) {
    e.eventId in db.matched && e.deviceId in db.t.devices && db.t.devices[e.deviceId].userId == e.userId
  }

  lemma StepKeepsRightful(db: Db, op: Op, e: Entry)
    requires RightfulRow(db, e) && DeviceRegistry.Inv(db.t.devices) && Enabled(db, op)
    ensures RightfulRow(Step(db, op), e)
  {
    StepKeepsMatched(db, op);
    StepKeepsDeviceInv(db, op);
  }

  lemma StepKeepsMatched(db: Db, op: Op)
    ensures db.matched <= Step(db, op).matched
  {
    hide Enqueued, Performed, Outcomes.Recorded, Outcomes.RecordedUnauthorized, DeviceRegistry.Apply;
  }

  lemma NewRowIsRightful(db: Db, op: Op, id: int)
    requires Enabled(db, op) && id !in db.t.outbox && id in Step(db, op).t.outbox
    ensures RightfulRow(Step(db, op), Step(db, op).t.outbox[id])
  {
    hide RowFor, EnqueueWellFormed;
    StepOnNewRow(db, op, id);
  }

  /** In every reachable state every entry belongs to a matched event and to a device registered to the entry's user. */
  lemma {:induction false} EntriesAreRightful(s: seq<Db>, ops: seq<Op>, n: nat, id: int)
    requires IsRun(s, ops) && n < |s| && id in s[n].t.outbox
    ensures RightfulRow(s[n], s[n].t.outbox[id])
  {
    hide Step, Enabled, DeviceRegistry.Inv, RightfulRow;
    if n > 0 {
      assert Follows(s, ops, n - 1);
      if id in s[n - 1].t.outbox {
        EntriesAreRightful(s, ops, n - 1, id);
        NotifyProtocol.RunInv(s, ops, n - 1);
        StepKeepsRightful(s[n - 1], ops[n - 1], s[n - 1].t.outbox[id]);
        StepRowLater(s[n - 1], ops[n - 1], id);
        SameOwner(s[n], s[n - 1].t.outbox[id], s[n].t.outbox[id]);
      } else {
        NewRowIsRightful(s[n - 1], ops[n - 1], id);
      }
    }
  }

  lemma SameOwner(db: Db, e: Entry, f: Entry)
    requires RowLater(e, f) && RightfulRow(db, e)
    ensures RightfulRow(db, f)
  {
  }

  /**
   Enqueueing goes through exactly on a well-formed call about a matched event whose pair has its row already or whose
   device is the user's; the row is the one the pair had, or a new one due from `first`, with nothing tried yet.
   */
  lemma EnqueueExactly(o: Outbox, owners: map<int, int>, matched: set<EventId>, now: Time, ev: EventId, device: int,
                       user: int, max: int, first: Time, expires: Time, newId: int)
    requires OutboxInv(o) && FreshId(o, newId)
    ensures var (after, r) := Enqueued(o, owners, matched, now, ev, device, user, max, first, expires, newId);
            var known := exists id :: id in o && ForPair(o[id], ev, device);
            && (r.Ok? <==>
                && !IsZero(now) && ValidEventId(ev) && device > 0 && user > 0 && max > 0 && !IsZero(first)
                && now < expires && first < expires && ev in matched
                && (known || (device in owners && owners[device] == user)))
            && (r.Ok? && known ==> after == o && r.value.id in o && o[r.value.id] == r.value)
            && (r.Ok? && !known ==>
                  && r.value == Entry(newId, ev, device, user, Pending, 0, max, Some(first), expires, now, None)
                  && after == o[newId := r.value])
            && (r == Err(Forbidden) ==> !known && !(device in owners && owners[device] == user))
  {
    hide ValidEventId, RowInv, UniquePairs;
  }
}
