/** Lease exclusivity, fencing and the permanence of rows, over every run of the protocol. */
module NotifyFencing {
  import opened Prelude
  import opened NotifyOutbox
  import opened NotifyProtocol
  import DeviceRegistry
  import NotifyDelivery
  import Outcomes = NotifyOutcome

  // Rows only move forward

  /** The row keeps its identity, never loses an attempt, and once terminal never changes again. */
  predicate RowLater(e: Entry, f: Entry) {
    && f.id == e.id && f.eventId == e.eventId && f.deviceId == e.deviceId && f.userId == e.userId
    && f.maxAttempts == e.maxAttempts && f.expiresAt == e.expiresAt && f.createdAt == e.createdAt
    && f.attemptCount >= e.attemptCount
    && (!e.state.Pending? ==> f == e)
  }

  lemma StepRowLater(db: Db, op: Op, id: int)
    requires id in db.t.outbox && Enabled(db, op)
    ensures id in Step(db, op).t.outbox && RowLater(db.t.outbox[id], Step(db, op).t.outbox[id])
  {
    hide Step, Enabled, Set;
    StepOnRow(db, op, id);
    match Attempted(op)
    case Some((_, c)) => SetKeepsIdentity(db.t.outbox[id], c);
    case None =>
  }

  lemma {:induction false} RowsPersist(s: seq<Db>, ops: seq<Op>, i: nat, j: nat, id: int)
    requires IsRun(s, ops) && i <= j < |s| && id in s[i].t.outbox
    ensures id in s[j].t.outbox && RowLater(s[i].t.outbox[id], s[j].t.outbox[id])
  {
    hide Step, Enabled, Initial, DeviceRegistry.Inv;
    if i < j {
      RowsPersist(s, ops, i, j - 1, id);
      assert Follows(s, ops, j - 1);
      StepRowLater(s[j - 1], ops[j - 1], id);
    }
  }

  // The lease

  /** A call that presents `token`. */
  predicate ByHolder(op: Op, token: Token) {
    match Attempted(op)
    case Some((_, c)) => Bears(c, token)
    case None => false
  }

  /** A claim of the row no earlier than the end of the lease. */
  predicate ClaimsFrom(op: Op, id: int, leaseEnd: Time) {
    op.Update? && op.id == id && op.c.Claim? && op.c.now >= leaseEnd
  }

  predicate Leased(e: Entry, token: Token, leaseEnd: Time) {
    e.claimToken == Some(token) && e.nextAttemptAt == Some(leaseEnd)
  }

  lemma StepRespectsLease(db: Db, op: Op, id: int, token: Token, leaseEnd: Time)
    requires id in db.t.outbox && Enabled(db, op) && Leased(db.t.outbox[id], token, leaseEnd)
    requires !ByHolder(op, token) && !ClaimsFrom(op, id, leaseEnd)
    ensures id in Step(db, op).t.outbox && Step(db, op).t.outbox[id] == db.t.outbox[id]
  {
    hide Step, Enabled, Set, Where;
    StepOnRow(db, op, id);
    match Attempted(op)
    case Some((target, c)) =>
      if target == id && Succeeds(db.t.outbox, id, c) {
        LeaseExcludes(db.t.outbox[id], c, token);
        RecordingIsFenced(db, op);
      }
    case None =>
  }

  lemma RecordingIsFenced(db: Db, op: Op)
    requires Enabled(db, op)
    ensures match Attempted(op) case Some((_, c)) => c.Claim? ==> op.Update? case None => true
  {
  }

  /**
   From the claim that issued a token until its lease ends, the claimed row stays exactly as the claim left it for as
   long as nobody presents that token, whatever everyone else does.
   */
  lemma {:induction false} LeaseIsExclusive(s: seq<Db>, ops: seq<Op>, i: nat, j: nat, id: int, now: Time,
                                            lease: Time, token: Token)
    requires IsRun(s, ops) && i < j < |s|
    requires ops[i] == Op.Update(id, Change.Claim(now, lease, token)) && Succeeds(s[i].t.outbox, id, ops[i].c)
    requires forall k :: i < k < j ==> !ByHolder(ops[k], token) && !ClaimsFrom(ops[k], id, now + lease)
    ensures id in s[j].t.outbox && s[j].t.outbox[id] == Set(s[i].t.outbox[id], ops[i].c)
    ensures Leased(s[j].t.outbox[id], token, now + lease)
  {
    hide Step, Enabled, Initial, DeviceRegistry.Inv, ByHolder, ClaimsFrom, Where;
    if j == i + 1 {
      assert Follows(s, ops, i);
      ClaimStep(s[i], id, ops[i].c);
    } else {
      LeaseIsExclusive(s, ops, i, j - 1, id, now, lease, token);
      assert Follows(s, ops, j - 1);
      StepRespectsLease(s[j - 1], ops[j - 1], id, token, now + lease);
    }
  }

  lemma ClaimStep(db: Db, id: int, c: Change)
    requires Succeeds(db.t.outbox, id, c)
    ensures id in Step(db, Op.Update(id, c)).t.outbox
            && Step(db, Op.Update(id, c)).t.outbox[id] == Set(db.t.outbox[id], c)
  {
    hide Set, Where;
  }

  // Fencing

  /** The token was issued and no row carries it any more. */
  ghost predicate Dead(db: Db, token: Token) {
    token in db.issued && forall id :: id in db.t.outbox ==> db.t.outbox[id].claimToken != Some(token)
  }

  lemma StepKeepsDead(db: Db, op: Op, token: Token)
    requires Dead(db, token) && Enabled(db, op)
    ensures Dead(Step(db, op), token)
  {
    hide Step, Set, Where, Succeeds;
    var after := Step(db, op);
    StepOnIssued(db, op);
    forall id | id in after.t.outbox ensures after.t.outbox[id].claimToken != Some(token) {
      if id in db.t.outbox {
        StepOnRow(db, op, id);
        if after.t.outbox[id] != db.t.outbox[id] {
          SuccessOf(db.t.outbox, id, Attempted(op).value.1);
        }
      } else {
        StepOnNewRow(db, op, id);
      }
    }
  }

  /** Once the row has changed in any way under a claim, its token is dead. */
  lemma ChangeKills(db: Db, op: Op, id: int, token: Token)
    requires Inv(db) && Enabled(db, op) && id in db.t.outbox && db.t.outbox[id].claimToken == Some(token)
    requires id in Step(db, op).t.outbox && Step(db, op).t.outbox[id] != db.t.outbox[id]
    ensures Dead(Step(db, op), token)
  {
    hide Step, Set, Where, Succeeds, DeviceRegistry.Inv, RowInv, UniquePairs;
    var after := Step(db, op);
    StepOnIssued(db, op);
    forall other | other in after.t.outbox ensures after.t.outbox[other].claimToken != Some(token) {
      if other in db.t.outbox {
        StepOnRow(db, op, other);
        StepOnRow(db, op, id);
        SuccessOf(db.t.outbox, id, Attempted(op).value.1);
      } else {
        StepOnNewRow(db, op, other);
      }
    }
  }

  /** A call with a dead token is refused, as a conflict if the row exists, and changes nothing at all. */
  lemma DeadTokenIsRefused(db: Db, op: Op, token: Token)
    requires Dead(db, token) && ByHolder(op, token)
    ensures var (id, c) := Attempted(op).value;
            Performed(db.t.outbox, id, c).1 ==
              Err(if id <= 0 || !c.WellFormed() then NotifyOutbox.Input else if id !in db.t.outbox
                    then NotifyOutbox.NotFound else NotifyOutbox.Conflict)
    ensures Step(db, op) == db
  {
    hide Set, NotifyOutbox.Change.WellFormed, NotifyDelivery.Recordable, DeviceRegistry.Apply;
  }

  lemma {:induction false} DeadForever(s: seq<Db>, ops: seq<Op>, i: nat, j: nat, token: Token)
    requires IsRun(s, ops) && i <= j < |s| && Dead(s[i], token)
    ensures Dead(s[j], token)
  {
    hide Step, Enabled, Initial, DeviceRegistry.Inv, Dead;
    if i < j {
      DeadForever(s, ops, i, j - 1, token);
      assert Follows(s, ops, j - 1);
      StepKeepsDead(s[j - 1], ops[j - 1], token);
    }
  }

  /**
   Fencing: if the row a token claimed has changed by some step, then at every later point of the run any call with
   that token, on any row, is refused and changes nothing.
   */
  lemma FencedForever(s: seq<Db>, ops: seq<Op>, i: nat, j: nat, id: int, token: Token)
    requires IsRun(s, ops) && i < j < |ops|
    requires id in s[i].t.outbox && s[i].t.outbox[id].claimToken == Some(token)
    requires id in s[i + 1].t.outbox && s[i + 1].t.outbox[id] != s[i].t.outbox[id]
    ensures Dead(s[j], token)
    ensures ByHolder(ops[j], token) ==> s[j + 1] == s[j]
  {
    hide Step, Enabled, Initial, DeviceRegistry.Inv, Dead, Inv, ByHolder;
    RunInv(s, ops, i);
    assert Follows(s, ops, i);
    ChangeKills(s[i], ops[i], id, token);
    DeadForever(s, ops, i + 1, j, token);
    assert Follows(s, ops, j);
    if ByHolder(ops[j], token) {
      DeadTokenIsRefused(s[j], ops[j], token);
    }
  }

  // Idempotent enqueueing

  /**
   Once a row exists for an event and a device, it stays the only one, and enqueueing the pair again changes nothing.
   */
  lemma NeverDuplicated(s: seq<Db>, ops: seq<Op>, i: nat, j: nat, id: int)
    requires IsRun(s, ops) && i <= j < |ops| && id in s[i].t.outbox
    ensures var e := s[i].t.outbox[id];
            && RowFor(s[j].t.outbox, e.eventId, e.deviceId) == Some(id)
            && (ops[j].Enqueue? && ops[j].eventId == e.eventId && ops[j].deviceId == e.deviceId ==> s[j + 1] == s[j])
  {
    hide Enabled, Initial, DeviceRegistry.Inv, RowFor, ClaimsAsIssued, RowInv, DeviceRegistry.Apply, Performed,
         Outcomes.Recorded, Outcomes.RecordedUnauthorized, EnqueueWellFormed;
    RowsPersist(s, ops, i, j, id);
    RunInv(s, ops, j);
    RowForIsUnique(s[j].t.outbox, id);
    assert Follows(s, ops, j);
  }
}
