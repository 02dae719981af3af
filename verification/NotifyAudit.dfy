/**
 Conservation between an outbox entry and its audit rows, and the numbering of attempts, over every run in which
 outcomes go through the outcome recorder with numbers planned from the claimed entry.
 */
module NotifyAudit {
  import opened Prelude
  import opened NotifyOutbox
  import opened NotifyDelivery
  import opened NotifyProtocol
  import DeviceRegistry
  import Attempt = NotifyAttempt
  import Outcomes = NotifyOutcome

  /** An entry's audit rows, oldest first. */
  function RowsOf(log: seq<Delivery>, id: int): seq<Delivery> {
    if log == [] then []
    else
      var rest := RowsOf(log[..|log| - 1], id);
      var last := log[|log| - 1];
      if last.outboxId == id then rest + [last] else rest
  }

  predicate AllFailed(rows: seq<Delivery>) {
    forall k :: 0 <= k < |rows| ==> rows[k].outcome == Outcome.Failed
  }

  /** All rows but the last are failures, and the last says how the entry ended. */
  predicate EndsWith(rows: seq<Delivery>, end: Outcome) {
    |rows| > 0 && AllFailed(rows[..|rows| - 1]) && rows[|rows| - 1].outcome == end
  }

  /** How an entry ended: not yet, by a transition without an audit row, or by a recorded one with this outcome. */
  datatype Ending = StillOpen | Unrecorded | RecordedAs(outcome: Outcome)

  /** The state an entry ends in with this outcome. */
  function StateFor(end: Outcome): Option<State> {
    match end
    case Sent => Some(State.Sent)
    case Canceled => Some(State.Canceled)
    case Expired => Some(State.Expired)
    case DeadLetter => Some(State.DeadLetter)
    case Unauthorized => Some(State.DeadLetter)
    case _ => None
  }

  /**
   The books balance: one row per counted attempt, and one more exactly if the entry was sent or its cancellation was
   recorded. All rows are failures, but the last row of an entry whose end was recorded, which says how it ended.
   */
  predicate Balanced(e: Entry, how: Ending, rows: seq<Delivery>) {
    match how
    case StillOpen => e.state.Pending? && |rows| == e.attemptCount && AllFailed(rows)
    case Unrecorded => e.state in {State.Canceled, State.Expired} && |rows| == e.attemptCount && AllFailed(rows)
    case RecordedAs(end) =>
      && StateFor(end) == Some(e.state) && EndsWith(rows, end)
      && |rows| == e.attemptCount + if end in {Outcome.Sent, Outcome.Canceled} then 1 else 0
  }

  /** Attempt numbers run 1, 2, 3, ... without a gap or a repeat. */
  predicate Numbered(rows: seq<Delivery>) {
    forall k :: 0 <= k < |rows| ==> rows[k].attemptNumber == k + 1
  }

  type Endings = map<int, Ending>

  ghost predicate Audited(db: Db, how: Endings) {
    && how.Keys == db.t.outbox.Keys
    && (forall id :: id in db.t.outbox ==> Balanced(db.t.outbox[id], how[id], RowsOf(db.t.deliveries, id)))
    && (forall id :: id !in db.t.outbox ==> RowsOf(db.t.deliveries, id) == [])
  }

  ghost predicate AllNumbered(db: Db) {
    forall id :: id in db.t.outbox ==> Numbered(RowsOf(db.t.deliveries, id))
  }

  // How a step ends an entry

  /** The step is a recording transaction that goes through on this entry. */
  predicate RecordsOn(db: Db, op: Op, id: int) {
    match op
    case Record(target, c, d) => target == id && Recording(c) && Outcomes.Recorded(db.t, id, c, d).1.Ok?
    case RecordUnauthorized(now, target, token, d, user, dev) =>
      target == id && Outcomes.RecordedUnauthorized(db.t, now, id, token, d, user, dev).1.Ok?
    case _ => false
  }

  /** The outcome a recording transaction stands for, given the entry it finds. */
  function OutcomeOf(op: Op, e: Entry): Outcome {
    match op
    case Record(_, MarkSent(_, _), _) => Outcome.Sent
    case Record(_, CancelClaimed(_, _), _) => Outcome.Canceled
    case Record(_, DeadLetterClaimed(_, _), _) => Outcome.DeadLetter
    case Record(_, RecordFailedAttempt(now, _, _), _) =>
      if now >= e.expiresAt then Outcome.Expired
      else if e.attemptCount + 1 >= e.maxAttempts then Outcome.DeadLetter
      else Outcome.Failed
    case RecordUnauthorized(_, _, _, _, _, _) => Outcome.Unauthorized
    case _ => Outcome.Unset
  }

  function EndingBy(op: Op, e: Entry): Ending {
    if OutcomeOf(op, e) == Outcome.Failed then StillOpen else RecordedAs(OutcomeOf(op, e))
  }

  /** An entry's ending after a step, given its ending before. */
  ghost function EndingAfter(db: Db, op: Op, id: int, how: Ending): Ending {
    if id in db.t.outbox && RecordsOn(db, op, id) then EndingBy(op, db.t.outbox[id])
    else if id in Step(db, op).t.outbox && !Step(db, op).t.outbox[id].state.Pending? && how.StillOpen? then Unrecorded
    else how
  }

  ghost function EndingsAfter(db: Db, op: Op, how: Endings): (after: Endings)
    ensures after.Keys == Step(db, op).t.outbox.Keys
  {
    map id | id in Step(db, op).t.outbox :: EndingAfter(db, op, id, if id in how then how[id] else StillOpen)
  }

  /** The audit outcome that belongs to a recording; a failed attempt's is overwritten. */
  predicate RightOutcome(op: Op) {
    match op
    case Record(_, c, d) =>
      (match c
       case MarkSent(_, _) => d.outcome == Outcome.Sent
       case CancelClaimed(_, _) => d.outcome == Outcome.Canceled
       case DeadLetterClaimed(_, _) => d.outcome == Outcome.DeadLetter
       case RecordFailedAttempt(_, _, _) => true
       case _ => false)
    case RecordUnauthorized(_, _, _, d, _, _) => d.outcome == Outcome.Unauthorized
    case _ => true
  }

  /** What the recorder asks of its callers: the audit row is about this entry and says what was done. */
  predicate Honest(op: Op)
    requires op.Record? || op.RecordUnauthorized?
  {
    op.d.outboxId == op.id && RightOutcome(op)
  }

  /** Outcomes are recorded, never applied to the outbox alone. */
  predicate Disciplined(op: Op) {
    match op
    case Update(_, c) => !Recording(c)
    case Record(_, _, _) => Honest(op)
    case RecordUnauthorized(_, _, _, _, _, _) => Honest(op)
    case _ => true
  }

  /** The audit row's number is the one planned on the entry that the presented token's claim returned. */
  predicate PlannedRow(db: Db, token: Token, d: Delivery) {
    token in db.issued && Attempt.DeriveAttemptNumber(db.issued[token]) == Ok(d.attemptNumber)
  }

  predicate Planned(db: Db, op: Op) {
    match op
    case Record(_, c, d) => c.Fenced() && PlannedRow(db, c.token, d)
    case RecordUnauthorized(_, _, token, d, _, _) => PlannedRow(db, token, d)
    case _ => true
  }

  // Bookkeeping of one entry

  lemma RowsOfAppend(log: seq<Delivery>, d: Delivery, id: int)
    ensures RowsOf(log + [d], id) == if d.outboxId == id then RowsOf(log, id) + [d] else RowsOf(log, id)
  {
    assert (log + [d])[..|log|] == log;
  }

  /** The transition and the audit row of a recording transaction that goes through. */
  function ChangeOf(op: Op): Change
    requires op.Record? || op.RecordUnauthorized?
  {
    if op.Record? then op.c else Change.DeadLetterClaimed(op.now, op.token)
  }

  function RowWritten(op: Op, e: Entry): Delivery
    requires op.Record? || op.RecordUnauthorized?
  {
    Outcomes.Written(ChangeOf(op), Set(e, ChangeOf(op)), op.d)
  }

  lemma WrittenFields(op: Op, e: Entry)
    requires op.Record? || op.RecordUnauthorized?
    ensures RowWritten(op, e) == op.d.(outcome := RowWritten(op, e).outcome)
  {
    hide Set;
  }

  /** A recorded transition balances the books with the row it writes, if and only if that row says what was done. */
  lemma RecordedBalances(e: Entry, rows: seq<Delivery>, op: Op)
    requires Balanced(e, StillOpen, rows) && (op.Record? || op.RecordUnauthorized?) && (op.Record? ==> Recording(op.c))
    ensures Balanced(Set(e, ChangeOf(op)), EndingBy(op, e), rows + [RowWritten(op, e)]) <==> RightOutcome(op)
  {
    var row := RowWritten(op, e);
    assert (rows + [row])[..|rows|] == rows;
    assert EndsWith(rows + [row], row.outcome);
    assert AllFailed(rows + [row]) <==> row.outcome == Outcome.Failed;
  }

  /** Without a row of its own a recorded transition never balances them. */
  lemma MissingRow(e: Entry, rows: seq<Delivery>, op: Op)
    requires Balanced(e, StillOpen, rows) && (op.Record? || op.RecordUnauthorized?) && (op.Record? ==> Recording(op.c))
    ensures !Balanced(Set(e, ChangeOf(op)), EndingBy(op, e), rows)
  {
  }

  /** A transition without an outcome needs no row. */
  lemma UnrecordedBalances(e: Entry, rows: seq<Delivery>, c: Change)
    requires Balanced(e, StillOpen, rows) && Where(e, c) && !Recording(c)
    ensures Balanced(Set(e, c), if Set(e, c).state.Pending? then StillOpen else Unrecorded, rows)
  {
  }

  lemma RecordedFields(t: Outcomes.Tables, id: int, c: Change, d: Delivery)
    ensures var (after, r) := Outcomes.Recorded(t, id, c, d);
            if r.Ok? then
              && Succeeds(t.outbox, id, c) && after.outbox == t.outbox[id := Set(t.outbox[id], c)]
              && after.deliveries == t.deliveries + [Outcomes.Written(c, Set(t.outbox[id], c), d)]
              && d.outboxId in after.outbox && d.attemptNumber > 0
            else after == t
  {
    hide Set, Where, Change.WellFormed, ValidEventId, ValidErrorCode;
  }

  lemma SucceedsWhere(o: NotifyOutbox.Outbox, id: int, c: Change)
    requires Succeeds(o, id, c)
    ensures id in o && o[id].state.Pending? && Where(o[id], c)
  {
  }

  // One step

  /** What a recording transaction leaves in the tables. */
  lemma StepRecords(db: Db, op: Op, id: int)
    requires RecordsOn(db, op, id)
    ensures (op.Record? || op.RecordUnauthorized?) && op.id == id && (op.Record? ==> Recording(op.c))
    ensures Succeeds(db.t.outbox, id, ChangeOf(op)) && id in db.t.outbox && db.t.outbox[id].state.Pending?
    ensures var after := Step(db, op).t;
            && after.outbox == db.t.outbox[id := Set(db.t.outbox[id], ChangeOf(op))]
            && after.deliveries == db.t.deliveries + [RowWritten(op, db.t.outbox[id])]
            && op.d.outboxId in after.outbox
  {
    hide Set, Where, Outcomes.Recorded, Change.WellFormed, Outcomes.Written;
    RecordedFields(db.t, id, ChangeOf(op), op.d);
    SucceedsWhere(db.t.outbox, id, ChangeOf(op));
  }

  /** A step that records nothing writes no audit row, and changes an entry only by a transition that needs none. */
  lemma StepWithoutRecord(db: Db, op: Op)
    requires Enabled(db, op) && Disciplined(op) && forall id :: !RecordsOn(db, op, id)
    ensures Step(db, op).t.deliveries == db.t.deliveries
    ensures match op
            case Update(id, c) =>
              !Recording(c) && (Step(db, op).t.outbox == db.t.outbox ||
                                (Succeeds(db.t.outbox, id, c)
                                 && Step(db, op).t.outbox == db.t.outbox[id := Set(db.t.outbox[id], c)]))
            case Enqueue(_, _, _, _, _, _, _, _) => true
            case _ => Step(db, op).t.outbox == db.t.outbox
  {
    hide Set, Where, Outcomes.Recorded, Change.WellFormed, RowFor, EnqueueWellFormed, DeviceRegistry.Apply;
    match op
    case Record(id, c, d) =>
      assert !RecordsOn(db, op, id);
      RecordedFields(db.t, id, c, d);
    case RecordUnauthorized(now, id, token, d, user, dev) =>
      assert !RecordsOn(db, op, id);
      RecordedFields(db.t, id, Change.DeadLetterClaimed(now, token), d);
    case _ =>
  }

  /**
   The recorder checks neither that the audit row is about the entry it transitions nor that it says what was done.
   A recording that goes through keeps the books balanced if and only if both hold.
   */
  lemma HonestyIsNeeded(db: Db, how: Endings, op: Op, id: int)
    requires Audited(db, how) && RecordsOn(db, op, id)
    ensures (op.Record? || op.RecordUnauthorized?)
    ensures Audited(Step(db, op), EndingsAfter(db, op, how)) <==> Honest(op)
  {
    hide Balanced, Set, RowsOf, Step, Outcomes.Written, Where, RightOutcome, RowWritten, EndingBy, RecordsOn, Succeeds;
    StepRecords(db, op, id);
    var e, after, later := db.t.outbox[id], Step(db, op), EndingsAfter(db, op, how);
    var row := RowWritten(op, e);
    assert later[id] == EndingBy(op, e);
    OpenIsOpen(e, how[id], RowsOf(db.t.deliveries, id));
    WrittenFields(op, e);
    RecordedBalances(e, RowsOf(db.t.deliveries, id), op);
    MissingRow(e, RowsOf(db.t.deliveries, id), op);
    forall i
      ensures RowsOf(after.t.deliveries, i) ==
              if i == op.d.outboxId then RowsOf(db.t.deliveries, i) + [row] else RowsOf(db.t.deliveries, i)
    {
      RowsOfAppend(db.t.deliveries, row, i);
    }
    forall i | i in db.t.outbox && i != id ensures later[i] == how[i] {
      OthersKeepEnding(db, op, how, id, i);
    }
  }

  lemma OpenIsOpen(e: Entry, how: Ending, rows: seq<Delivery>)
    requires Balanced(e, how, rows)
    ensures how.StillOpen? <==> e.state.Pending?
  {
  }

  lemma OthersKeepEnding(db: Db, op: Op, how: Endings, id: int, other: int)
    requires Audited(db, how) && RecordsOn(db, op, id) && other in db.t.outbox && other != id
    ensures other in Step(db, op).t.outbox && EndingsAfter(db, op, how)[other] == how[other]
  {
    hide Balanced, Step, Set, RowsOf;
    StepRecords(db, op, id);
    OpenIsOpen(db.t.outbox[other], how[other], RowsOf(db.t.deliveries, other));
  }

  lemma NewEntryBalances(id: int, now: Time, ev: EventId, dev: int, user: int, max: int, first: Time, expires: Time)
    ensures Balanced(NewEntry(id, now, ev, dev, user, max, first, expires), StillOpen, [])
  {
  }

  /** Every step that records its outcome honestly keeps all books balanced. */
  lemma StepKeepsAudited(db: Db, how: Endings, op: Op)
    requires Audited(db, how) && Enabled(db, op) && Disciplined(op)
    ensures Audited(Step(db, op), EndingsAfter(db, op, how))
  {
    hide Balanced, RowsOf, Set, Step, RecordsOn, Enabled, Honest, Audited;
    if id :| RecordsOn(db, op, id) {
      HonestyIsNeeded(db, how, op, id);
    } else {
      UnrecordedKeepsAudited(db, how, op);
    }
  }

  lemma UnrecordedKeepsAudited(db: Db, how: Endings, op: Op)
    requires Audited(db, how) && Enabled(db, op) && Disciplined(op) && forall id :: !RecordsOn(db, op, id)
    ensures Audited(Step(db, op), EndingsAfter(db, op, how))
  {
    hide Balanced, RowsOf, Set, Where, Step, RecordsOn, Enabled, Honest, Change.WellFormed;
    StepWithoutRecord(db, op);
    var after, later := Step(db, op), EndingsAfter(db, op, how);
    forall id | id in after.t.outbox ensures Balanced(after.t.outbox[id], later[id], RowsOf(after.t.deliveries, id)) {
      assert !RecordsOn(db, op, id);
      if id in db.t.outbox {
        var e, rows := db.t.outbox[id], RowsOf(db.t.deliveries, id);
        OpenIsOpen(e, how[id], rows);
        StepOnRow(db, op, id);
        if after.t.outbox[id] != e {
          SucceedsWhere(db.t.outbox, id, op.c);
          UnrecordedBalances(e, rows, op.c);
        }
      } else {
        StepOnNewRow(db, op, id);
        NewEntryBalances(id, op.now, op.eventId, op.deviceId, op.userId, op.maxAttempts, op.first, op.expiresAt);
      }
    }
    forall id | id in db.t.outbox ensures id in after.t.outbox {
      StepOnRow(db, op, id);
    }
  }

  /** How a step changes one entry's audit rows: not at all, or by the row of a recording that went through on it. */
  lemma StepOnRows(db: Db, op: Op, id: int)
    requires Enabled(db, op) && Disciplined(op)
    ensures RowsOf(Step(db, op).t.deliveries, id) == RowsOf(db.t.deliveries, id)
            || (RecordsOn(db, op, id) && id in db.t.outbox
                && RowsOf(Step(db, op).t.deliveries, id) ==
                   RowsOf(db.t.deliveries, id) + [RowWritten(op, db.t.outbox[id])])
  {
    hide RowsOf, Step, RecordsOn, Enabled, RowWritten, RightOutcome;
    if target :| RecordsOn(db, op, target) {
      StepRecords(db, op, target);
      WrittenFields(op, db.t.outbox[target]);
      RowsOfAppend(db.t.deliveries, RowWritten(op, db.t.outbox[target]), id);
    } else {
      StepWithoutRecord(db, op);
    }
  }

  /** The number planned from the claimed entry is the next one, because the claimed row has not changed since. */
  lemma PlannedIsNext(db: Db, how: Endings, id: int, c: Change, d: Delivery)
    requires OutboxInv(db.t.outbox) && ClaimsAsIssued(db) && Audited(db, how) && Recording(c)
             && Succeeds(db.t.outbox, id, c)
    requires PlannedRow(db, c.token, d)
    ensures d.attemptNumber == |RowsOf(db.t.deliveries, id)| + 1
  {
    hide RowsOf, RowInv, UniquePairs, Change.WellFormed;
    assert db.issued[c.token] == db.t.outbox[id];
  }

  lemma StepKeepsNumbered(db: Db, how: Endings, op: Op)
    requires Inv(db) && Audited(db, how) && AllNumbered(db) && Enabled(db, op) && Disciplined(op) && Planned(db, op)
    ensures AllNumbered(Step(db, op))
  {
    hide OutboxInv, ClaimsAsIssued, DeviceRegistry.Inv, Balanced, RowsOf, Step, Where, Set, PlannedRow, RecordsOn,
         Change.WellFormed, RowWritten, Enabled, Disciplined, Succeeds;
    forall id | id in Step(db, op).t.outbox ensures Numbered(RowsOf(Step(db, op).t.deliveries, id)) {
      var rows, later := RowsOf(db.t.deliveries, id), RowsOf(Step(db, op).t.deliveries, id);
      assert Numbered(rows) by {
        if id !in db.t.outbox {
          assert rows == [];
        }
      }
      StepOnRows(db, op, id);
      if later != rows {
        StepRecords(db, op, id);
        PlannedIsNext(db, how, id, ChangeOf(op), op.d);
        WrittenFields(op, db.t.outbox[id]);
      }
    }
  }

  // Every run

  ghost predicate AllDisciplined(ops: seq<Op>) {
    forall n :: 0 <= n < |ops| ==> Disciplined(ops[n])
  }

  ghost predicate AllPlanned(s: seq<Db>, ops: seq<Op>)
    requires |s| == |ops| + 1
  {
    forall n :: 0 <= n < |ops| ==> Planned(s[n], ops[n])
  }

  /** How each entry has ended by state `n`. */
  ghost function EndingsAt(s: seq<Db>, ops: seq<Op>, n: nat): Endings
    requires |s| == |ops| + 1 && n < |s|
  {
    if n == 0 then map[] else EndingsAfter(s[n - 1], ops[n - 1], EndingsAt(s, ops, n - 1))
  }

  /** In every run whose outcomes are recorded, the books of every entry balance in every state. */
  lemma {:induction false} BooksAlwaysBalance(s: seq<Db>, ops: seq<Op>, n: nat)
    requires IsRun(s, ops) && AllDisciplined(ops) && n < |s|
    ensures Audited(s[n], EndingsAt(s, ops, n))
  {
    hide Step, Enabled, Disciplined, DeviceRegistry.Inv, EndingsAfter;
    if n > 0 {
      BooksAlwaysBalance(s, ops, n - 1);
      assert Follows(s, ops, n - 1);
      StepKeepsAudited(s[n - 1], EndingsAt(s, ops, n - 1), ops[n - 1]);
    }
  }

  /** If moreover numbers are planned from the claimed entry, every entry's attempts are numbered 1, 2, 3, ... */
  lemma {:induction false} NumbersAlwaysContiguous(s: seq<Db>, ops: seq<Op>, n: nat)
    requires IsRun(s, ops) && AllDisciplined(ops) && AllPlanned(s, ops) && n < |s|
    ensures AllNumbered(s[n])
  {
    hide Step, Enabled, Disciplined, Planned, Audited, Inv, DeviceRegistry.Inv, EndingsAfter;
    if n > 0 {
      NumbersAlwaysContiguous(s, ops, n - 1);
      BooksAlwaysBalance(s, ops, n - 1);
      NotifyProtocol.RunInv(s, ops, n - 1);
      assert Follows(s, ops, n - 1);
      StepKeepsNumbered(s[n - 1], EndingsAt(s, ops, n - 1), ops[n - 1]);
    }
  }

  /**
   Over a whole run an entry never gathers more audit rows than it was allowed attempts, and a row that sent or
   canceled it is the attempt after those counted.
   */
  lemma AttemptsBounded(s: seq<Db>, ops: seq<Op>, n: nat, id: int)
    requires IsRun(s, ops) && AllDisciplined(ops) && AllPlanned(s, ops) && n < |s| && id in s[n].t.outbox
    ensures var e, rows := s[n].t.outbox[id], RowsOf(s[n].t.deliveries, id);
            && |rows| <= e.maxAttempts
            && forall k :: 0 <= k < |rows| && rows[k].outcome in {Outcome.Sent, Outcome.Canceled} ==>
                             rows[k].attemptNumber == e.attemptCount + 1
  {
    hide Follows, Initial, AllDisciplined, AllPlanned, RowsOf, DeviceRegistry.Inv, ClaimsAsIssued, UniquePairs,
         EndingsAt;
    NotifyProtocol.RunInv(s, ops, n);
    BooksAlwaysBalance(s, ops, n);
    NumbersAlwaysContiguous(s, ops, n);
    LastRows(s[n].t.outbox[id], EndingsAt(s, ops, n)[id], RowsOf(s[n].t.deliveries, id));
  }

  lemma LastRows(e: Entry, how: Ending, rows: seq<Delivery>)
    requires RowInv(e) && Balanced(e, how, rows) && Numbered(rows)
    ensures |rows| <= e.maxAttempts
    ensures forall k :: 0 <= k < |rows| && rows[k].outcome in {Outcome.Sent, Outcome.Canceled} ==>
                          rows[k].attemptNumber == e.attemptCount + 1
  {
    if how.RecordedAs? {
      EarlierRowsFailed(rows, how.outcome);
    }
  }

  lemma EarlierRowsFailed(rows: seq<Delivery>, end: Outcome)
    requires EndsWith(rows, end)
    ensures forall k :: 0 <= k < |rows| - 1 ==> rows[k].outcome == Outcome.Failed
  {
    forall k | 0 <= k < |rows| - 1 ensures rows[k].outcome == Outcome.Failed {
      assert rows[k] == rows[..|rows| - 1][k];
    }
  }

  // The log itself

  /** A well-formed row about an entry of the outbox, with that entry's event and device. */
  predicate SoundRow(o: NotifyOutbox.Outbox, d: Delivery) {
    && d.outboxId in o && d.eventId == o[d.outboxId].eventId && d.deviceId == o[d.outboxId].deviceId
    && d.attemptNumber > 0 && !d.outcome.Unset?
  }

  lemma StepOnLog(db: Db, op: Op)
    requires Enabled(db, op)
    ensures var log, later := db.t.deliveries, Step(db, op).t.deliveries;
            later == log || exists d :: later == log + [d] && SoundRow(Step(db, op).t.outbox, d)
  {
    hide Set, Where, Change.WellFormed, ValidEventId, ValidErrorCode, RowFor, EnqueueWellFormed, DeviceRegistry.Apply;
    match op
    case Record(id, c, d) => RecordedRow(db.t, id, c, d);
    case RecordUnauthorized(now, id, token, d, user, dev) =>
      RecordedRow(db.t, id, Change.DeadLetterClaimed(now, token), d);
    case _ =>
  }

  lemma RecordedRow(t: Outcomes.Tables, id: int, c: Change, d: Delivery)
    ensures var (after, r) := Outcomes.Recorded(t, id, c, d);
            if r.Ok? then
              && id in after.outbox && after.outbox[id] == r.value.entry
              && after.deliveries == t.deliveries + [r.value.delivery] && SoundRow(after.outbox, r.value.delivery)
              && after.devices == t.devices
            else after == t
  {
    hide Set, Where, Change.WellFormed, ValidEventId, ValidErrorCode;
  }

  /** In every run, disciplined or not, the log only grows, and every row in it is about an entry of the outbox. */
  lemma {:induction false} LogIsSound(s: seq<Db>, ops: seq<Op>, i: nat, j: nat)
    requires IsRun(s, ops) && i <= j < |s|
    ensures s[i].t.deliveries <= s[j].t.deliveries
    ensures forall k :: 0 <= k < |s[j].t.deliveries| ==> SoundRow(s[j].t.outbox, s[j].t.deliveries[k])
    decreases j
  {
    hide Step, Enabled, DeviceRegistry.Inv, SoundRow;
    if j > 0 {
      LogIsSound(s, ops, if i < j then i else j - 1, j - 1);
      assert Follows(s, ops, j - 1);
      var db, op := s[j - 1], ops[j - 1];
      StepOnLog(db, op);
      forall k | 0 <= k < |db.t.deliveries| ensures SoundRow(Step(db, op).t.outbox, db.t.deliveries[k]) {
        StillSound(db, op, db.t.deliveries[k]);
      }
    }
  }

  lemma StillSound(db: Db, op: Op, d: Delivery)
    requires SoundRow(db.t.outbox, d) && Enabled(db, op)
    ensures SoundRow(Step(db, op).t.outbox, d)
  {
    hide Step, Enabled, Set;
    StepOnRow(db, op, d.outboxId);
    match Attempted(op)
    case Some((_, c)) => SetKeepsIdentity(db.t.outbox[d.outboxId], c);
    case None =>
  }

  /**
   A recording goes through exactly when its transition does and its row is well formed and about an entry. For a failed
   attempt the caller's outcome does not matter.
   */
  lemma RecordingExactly(t: Outcomes.Tables, id: int, c: Change, d: Delivery)
    ensures var row := if c.RecordFailedAttempt? then d.(outcome := Outcome.Failed) else d;
            Outcomes.Recorded(t, id, c, d).1.Ok? <==>
              Performed(t.outbox, id, c).1.Ok? && Valid(row) && Tied(t.outbox, row)
  {
    hide Change.WellFormed, ValidEventId, ValidErrorCode;
    if Performed(t.outbox, id, c).1.Ok? {
      SetKeepsIdentity(t.outbox[id], c);
    }
  }

  // What the last row and the extra row stand for

  /** The step recorded the entry's end with this outcome. */
  predicate Ends(db: Db, op: Op, id: int, end: Outcome) {
    id in db.t.outbox && RecordsOn(db, op, id) && OutcomeOf(op, db.t.outbox[id]) == end
  }

  ghost predicate EndedBy(s: seq<Db>, ops: seq<Op>, n: nat, id: int, end: Outcome)
    requires |s| == |ops| + 1 && n < |s|
  {
    exists i :: 0 <= i < n && Ends(s[i], ops[i], id, end)
  }

  lemma EndedByNext(s: seq<Db>, ops: seq<Op>, n: nat, id: int, end: Outcome)
    requires |s| == |ops| + 1 && 0 < n < |s|
    ensures EndedBy(s, ops, n, id, end) <==> EndedBy(s, ops, n - 1, id, end) || Ends(s[n - 1], ops[n - 1], id, end)
  {
    hide Ends;
  }

  /** An entry's ending is recorded with an outcome if and only if some step of the run recorded it. */
  lemma {:induction false} EndingIsEndedBy(s: seq<Db>, ops: seq<Op>, n: nat, id: int, end: Outcome)
    requires IsRun(s, ops) && AllDisciplined(ops) && n < |s| && end != Outcome.Failed
    ensures EndedBy(s, ops, n, id, end) <==> id in EndingsAt(s, ops, n) && EndingsAt(s, ops, n)[id] == RecordedAs(end)
  {
    hide Step, Enabled, Disciplined, DeviceRegistry.Inv, Balanced, RecordsOn, RowsOf, OutcomeOf;
    if n > 0 {
      EndingIsEndedBy(s, ops, n - 1, id, end);
      EndedByNext(s, ops, n, id, end);
      assert Follows(s, ops, n - 1);
      var db, op, how := s[n - 1], ops[n - 1], EndingsAt(s, ops, n - 1);
      BooksAlwaysBalance(s, ops, n - 1);
      if id in db.t.outbox {
        StepOnRow(db, op, id);
        OpenIsOpen(db.t.outbox[id], how[id], RowsOf(db.t.deliveries, id));
        if RecordsOn(db, op, id) {
          StepRecords(db, op, id);
        }
      }
    }
  }

  /**
   The last audit row says how the entry ended, for every outcome but a failure: it carries the outcome if and only if
   a step of the run recorded the entry's end with it.
   */
  lemma LastRowExactly(s: seq<Db>, ops: seq<Op>, n: nat, id: int, end: Outcome)
    requires IsRun(s, ops) && AllDisciplined(ops) && n < |s| && id in s[n].t.outbox && end != Outcome.Failed
    ensures var rows := RowsOf(s[n].t.deliveries, id);
            (rows != [] && rows[|rows| - 1].outcome == end) <==> EndedBy(s, ops, n, id, end)
  {
    hide Follows, Initial, AllDisciplined, EndingsAt, EndedBy, RowsOf;
    BooksAlwaysBalance(s, ops, n);
    EndingIsEndedBy(s, ops, n, id, end);
  }

  /**
   There is one row more than attempts counted if and only if the entry was recorded as sent or as canceled, else
   equally many.
   */
  lemma ExtraRowExactly(s: seq<Db>, ops: seq<Op>, n: nat, id: int)
    requires IsRun(s, ops) && AllDisciplined(ops) && n < |s| && id in s[n].t.outbox
    ensures |RowsOf(s[n].t.deliveries, id)| == s[n].t.outbox[id].attemptCount +
            if EndedBy(s, ops, n, id, Outcome.Sent) || EndedBy(s, ops, n, id, Outcome.Canceled) then 1 else 0
  {
    hide Follows, Initial, AllDisciplined, EndingsAt, EndedBy, RowsOf, EndsWith;
    BooksAlwaysBalance(s, ops, n);
    EndingIsEndedBy(s, ops, n, id, Outcome.Sent);
    EndingIsEndedBy(s, ops, n, id, Outcome.Canceled);
  }

  /** The step is a cancellation of the entry that the recorder carried through. */
  predicate RecordsCancel(db: Db, op: Op, id: int) {
    op.Record? && op.id == id && op.c.CancelClaimed? && Outcomes.Recorded(db.t, id, op.c, op.d).1.Ok?
  }

  /** A canceled entry has the extra row if and only if the recorder canceled it, rather than the store alone. */
  lemma CanceledExactly(s: seq<Db>, ops: seq<Op>, n: nat, id: int)
    requires IsRun(s, ops) && AllDisciplined(ops) && n < |s|
    ensures (&& id in s[n].t.outbox && s[n].t.outbox[id].state.Canceled?
             && |RowsOf(s[n].t.deliveries, id)| == s[n].t.outbox[id].attemptCount + 1) <==>
            exists i :: 0 <= i < n && RecordsCancel(s[i], ops[i], id)
  {
    hide Follows, Initial, AllDisciplined, EndingsAt, RowsOf, EndsWith, Outcomes.Recorded;
    BooksAlwaysBalance(s, ops, n);
    EndingIsEndedBy(s, ops, n, id, Outcome.Canceled);
    forall i | 0 <= i < n ensures RecordsCancel(s[i], ops[i], id) <==> Ends(s[i], ops[i], id, Outcome.Canceled) {
      CancelEnds(s[i], ops[i], id);
    }
  }

  lemma CancelEnds(db: Db, op: Op, id: int)
    ensures RecordsCancel(db, op, id) <==> Ends(db, op, id, Outcome.Canceled)
  {
    hide Outcomes.Recorded;
    if RecordsCancel(db, op, id) {
      StepRecords(db, op, id);
    }
  }

  /** The step is a failed attempt at the entry, recorded at or after its expiry. */
  predicate RecordsExpiry(db: Db, op: Op, id: int) {
    && op.Record? && op.id == id && op.c.RecordFailedAttempt? && Outcomes.Recorded(db.t, id, op.c, op.d).1.Ok?
    && id in db.t.outbox && op.c.now >= db.t.outbox[id].expiresAt
  }

  /** An expired entry's last row says so if and only if a failed attempt was recorded at or after its expiry. */
  lemma ExpiredExactly(s: seq<Db>, ops: seq<Op>, n: nat, id: int)
    requires IsRun(s, ops) && AllDisciplined(ops) && n < |s|
    ensures var rows := RowsOf(s[n].t.deliveries, id);
            (&& id in s[n].t.outbox && s[n].t.outbox[id].state.Expired?
             && rows != [] && rows[|rows| - 1].outcome == Outcome.Expired) <==>
            exists i :: 0 <= i < n && RecordsExpiry(s[i], ops[i], id)
  {
    hide Follows, Initial, AllDisciplined, EndingsAt, RowsOf, Outcomes.Recorded;
    BooksAlwaysBalance(s, ops, n);
    EndingIsEndedBy(s, ops, n, id, Outcome.Expired);
    forall i | 0 <= i < n ensures RecordsExpiry(s[i], ops[i], id) <==> Ends(s[i], ops[i], id, Outcome.Expired) {
      ExpiryEnds(s[i], ops[i], id);
    }
  }

  lemma ExpiryEnds(db: Db, op: Op, id: int)
    ensures RecordsExpiry(db, op, id) <==> Ends(db, op, id, Outcome.Expired)
  {
    hide Outcomes.Recorded;
  }
}
