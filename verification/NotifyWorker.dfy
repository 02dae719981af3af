/**
 What a worker does with an entry it has claimed. It reads several tables one after another while others write to them,
 so everything it reads is an argument; the one thing it decides is which single step to take next.
 */
module NotifyWorker {
  import opened Prelude
  import opened NotifyProtocol
  import opened NotifyDelivery
  import O = NotifyOutbox
  import D = NotifyDevices
  import DeviceRegistry
  import P = NotifyPreferences
  import Attempt = NotifyAttempt
  import Outcomes = NotifyOutcome
  import Audit = NotifyAudit
  import Backoff = NotifyBackoff
  import Fencing = NotifyFencing

  /** How long to put an entry off that cannot be sent yet, and how far apart failed attempts are. */
  datatype Config = Config(recheck: Time, baseDelay: Time, maxDelay: Time)

  /** The push relay's answer, with its Retry-After hint. */
  datatype Sent = Accepted | TemporaryFailure(code: Option<string>, retryAfter: Option<Time>)
                | PermanentFailure(code: Option<string>) | Unauthorized | NoAnswer

  function Expire(now: Time, e: O.Entry, token: O.Token): Op {
    Op.Update(e.id, O.Change.MarkExpiredClaimed(now, token))
  }

  /** Put the entry back for later, but not past its expiry; at its expiry, expire it. */
  function Defer(now: Time, e: O.Entry, token: O.Token, interval: Time): Op {
    var at := if now + interval > e.expiresAt then e.expiresAt else now + interval;
    if at <= now then Expire(now, e, token) else Op.Update(e.id, O.Change.RescheduleClaim(now, at, token))
  }

  function AuditRow(e: O.Entry, outcome: Outcome, number: int, code: Option<string>): Delivery {
    Delivery(e.id, e.eventId, e.deviceId, outcome, number, code)
  }

  function Report(now: Time, e: O.Entry, token: O.Token, number: int, cfg: Config, sent: Sent): Option<Op> {
    match sent
    case Accepted => Some(Op.Record(e.id, O.Change.MarkSent(now, token), AuditRow(e, Outcome.Sent, number, None)))
    case TemporaryFailure(code, retryAfter) =>
      var delay := Backoff.Delay(number, cfg.baseDelay, cfg.maxDelay, retryAfter);
      var next := if now + delay > e.expiresAt then e.expiresAt else now + delay;
      Some(Op.Record(e.id, O.Change.RecordFailedAttempt(now, next, token), AuditRow(e, Outcome.Unset, number, code)))
    case PermanentFailure(code) =>
      Some(Op.Record(e.id, O.Change.DeadLetterClaimed(now, token), AuditRow(e, Outcome.DeadLetter, number, code)))
    case Unauthorized =>
      Some(Op.RecordUnauthorized(now, e.id, token, AuditRow(e, Outcome.Unauthorized, number, None), e.userId,
                                 e.deviceId))
    case NoAnswer => None
  }

  /** `handleClaimed`; `None` means the worker gives up and leaves the claim to run out. */
  function HandleClaimed(now: Time, e: O.Entry, cfg: Config, device: Lookup<D.Registration>,
                         alert: Option<P.AlertContext>, answers: P.Answers, sent: Sent): Option<Op>
  {
    match e.claimToken
    case None => None
    case Some(token) =>
      match device
      case Failed => None
      case Missing => Some(Defer(now, e, token, cfg.recheck))
      case Found(reg) =>
        if !reg.testMode then Some(Defer(now, e, token, cfg.recheck))
        else match alert
          case None => None
          case Some(context) =>
            match Attempt.PlanAttempt(now, e, context, answers)
            case Err(PolicyUnresolved) => Some(Defer(now, e, token, cfg.recheck))
            case Err(NotPlannable) => Some(Expire(now, e, token))
            case Err(_) => None
            case Ok(plan) =>
              if plan.action.Cancel? then
                Some(Op.Record(e.id, O.Change.CancelClaimed(now, token),
                               AuditRow(e, Outcome.Canceled, plan.attemptNumber, None)))
              else Report(now, e, token, plan.attemptNumber, cfg, sent)
  }

  /**
   A worker holding the entry its claim returned presents that claim's token, records honestly and with the planned
   number, at whatever later moment its step is performed: exactly what the audit theorems ask of every caller.
   */
  lemma WorkerIsDisciplined(db: Db, now: Time, e: O.Entry, cfg: Config, device: Lookup<D.Registration>,
                            alert: Option<P.AlertContext>, answers: P.Answers, sent: Sent)
    requires e.claimToken.Some? && e.claimToken.value in db.issued && db.issued[e.claimToken.value] == e
    ensures match HandleClaimed(now, e, cfg, device, alert, answers, sent)
            case Some(op) =>
              Enabled(db, op) && Fencing.ByHolder(op, e.claimToken.value) && Audit.Disciplined(op)
              && Audit.Planned(db, op)
            case None => true
  {
    hide P.Evaluate, Backoff.Delay, DeviceRegistry.Enabled, Attempt.PlanAttempt;
    if alert.Some? {
      Attempt.PlanExactly(now, e, alert.value, answers);
    }
  }

  // Which step the worker takes

  /** A live entry with an attempt left: what a plan needs before anyone's preferences are looked at. */
  predicate Plannable(now: Time, e: O.Entry) {
    && !IsZero(now) && e.id > 0 && e.userId > 0 && e.deviceId > 0 && e.state.Pending? && now < e.expiresAt
    && 0 <= e.attemptCount < e.maxAttempts && e.attemptCount != 0x7fff_ffff_ffff_ffff
  }

  /** The worker gets as far as asking whether this alert may reach this device. */
  predicate Asks(e: O.Entry, device: Lookup<D.Registration>, alert: Option<P.AlertContext>) {
    e.claimToken.Some? && device.Found? && device.value.testMode && alert.Some?
  }

  /** Steps that only ever follow a send. */
  predicate FollowsSend(op: Op) {
    || op.RecordUnauthorized?
    || (op.Record? && (op.c.MarkSent? || op.c.RecordFailedAttempt? || op.c.DeadLetterClaimed?))
  }

  predicate Cancels(op: Op) {
    op.Record? && op.c.CancelClaimed?
  }

  /** The step that goes with the relay's answer to attempt `number`: about this entry, at this time, by this claim. */
  predicate ReportOf(op: Op, now: Time, e: O.Entry, token: O.Token, number: int, cfg: Config, sent: Sent) {
    var about := (d: Delivery) => d.outboxId == e.id && d.eventId == e.eventId && d.deviceId == e.deviceId
                                  && d.attemptNumber == number;
    match sent
    case Accepted => op.Record? && op.id == e.id && op.c == O.Change.MarkSent(now, token) && about(op.d)
    case TemporaryFailure(code, retryAfter) =>
      var delay := Backoff.Delay(number, cfg.baseDelay, cfg.maxDelay, retryAfter);
      && op.Record? && op.id == e.id && op.c.RecordFailedAttempt? && op.c.now == now && op.c.token == token
      && op.c.next <= e.expiresAt && op.c.next <= now + delay && op.c.next in {e.expiresAt, now + delay}
      && about(op.d) && op.d.errorCode == code
    case PermanentFailure(code) =>
      && op.Record? && op.id == e.id && op.c == O.Change.DeadLetterClaimed(now, token)
      && about(op.d) && op.d.errorCode == code
    case Unauthorized =>
      && op.RecordUnauthorized? && op.now == now && op.id == e.id && op.token == token
      && op.userId == e.userId && op.deviceId == e.deviceId && about(op.d)
    case NoAnswer => false
  }

  /**
   The worker reports a send only of what is eligible, and then exactly what the relay answered; it cancels exactly what
   is refused for any reason but quiet hours.
   */
  lemma SendsExactlyEligible(now: Time, e: O.Entry, cfg: Config, device: Lookup<D.Registration>,
                             alert: Option<P.AlertContext>, answers: P.Answers, sent: Sent)
    ensures var r := HandleClaimed(now, e, cfg, device, alert, answers, sent);
            var decided := Asks(e, device, alert) && Plannable(now, e);
            var verdict := if alert.Some? then P.Evaluate(now, e.userId, e.deviceId, alert.value, answers)
                           else Err(P.Error.Input);
            && (r.Some? && FollowsSend(r.value) <==> decided && verdict == Ok(P.Reason.Eligible) && !sent.NoAnswer?)
            && (r.Some? && FollowsSend(r.value) ==>
                  ReportOf(r.value, now, e, e.claimToken.value, e.attemptCount + 1, cfg, sent))
            && (r.Some? && Cancels(r.value) <==>
                decided && verdict.Ok? && !verdict.value.Eligible? && !verdict.value.QuietHours?)
            && (r.Some? && Cancels(r.value) ==>
                  && r.value.id == e.id && r.value.c == O.Change.CancelClaimed(now, e.claimToken.value)
                  && r.value.d == Delivery(e.id, e.eventId, e.deviceId, Outcome.Canceled, e.attemptCount + 1, None))
  {
    hide P.Evaluate, Backoff.Delay;
  }

  /**
   The step puts the entry off to the end of the interval or to its expiry, whichever comes first, or expires it there.
   */
  predicate Defers(op: Op, now: Time, e: O.Entry, token: O.Token, interval: Time) {
    && op.Update? && op.id == e.id
    && if now < e.expiresAt && interval > 0 then
         && op.c.RescheduleClaim? && op.c.now == now && op.c.token == token && now < op.c.next <= e.expiresAt
         && op.c.next <= now + interval && op.c.next in {e.expiresAt, now + interval}
       else op.c == O.Change.MarkExpiredClaimed(now, token)
  }

  /**
   Everything else it leaves to later: an entry whose device it may not send to, or whose user has quiet hours, is put
   off; one that is past planning is expired; and without an answer to what it asks it does nothing.
   */
  lemma DefersExactly(now: Time, e: O.Entry, cfg: Config, device: Lookup<D.Registration>,
                      alert: Option<P.AlertContext>, answers: P.Answers, sent: Sent)
    ensures var r := HandleClaimed(now, e, cfg, device, alert, answers, sent);
            var unsure := e.claimToken.Some? && (device.Missing? || (device.Found? && !device.value.testMode));
            var quiet := Asks(e, device, alert) && Plannable(now, e)
                         && P.Evaluate(now, e.userId, e.deviceId, alert.value, answers) == Ok(P.Reason.QuietHours);
            && (unsure || quiet ==> r.Some? && Defers(r.value, now, e, e.claimToken.value, cfg.recheck))
            && (Asks(e, device, alert) && Attempt.ValidateEntry(now, e) == Some(Attempt.NotPlannable)
                && !IsZero(now) ==>
                  r == Some(Op.Update(e.id, O.Change.MarkExpiredClaimed(now, e.claimToken.value))))
            && (e.claimToken.None? || device.Failed? || (device.Found? && device.value.testMode && alert.None?) ==>
                r.None?)
  {
    hide P.Evaluate, Backoff.Delay;
  }

  /** An entry is past planning when it is no longer pending, expired, or out of attempts. */
  lemma PastPlanning(now: Time, e: O.Entry)
    ensures Attempt.ValidateEntry(now, e) == Some(Attempt.NotPlannable) <==>
            && e.id > 0 && e.userId > 0 && e.deviceId > 0 && e.attemptCount >= 0 && e.maxAttempts > 0
            && (!e.state.Pending? || e.expiresAt <= now || e.attemptCount >= e.maxAttempts)
  {
  }

  /** What a lookup of a registration would find in the tables. */
  predicate Reflects(l: Lookup<D.Registration>, d: DeviceRegistry.Devices, id: int) {
    match l
    case Found(reg) => id in d && reg.userId == d[id].userId && reg.revokedAt == d[id].revokedAt
    case Missing => id !in d
    case Failed => true
  }

  /**
   Once a device's push endpoint was recorded as unauthorized, no plan made in any later state of the run, by anyone,
   for any entry and however much later it is carried out, sends to that device.
   */
  lemma UnauthorizedSilencesDevice(s: seq<Db>, ops: seq<Op>, i: nat, j: nat, now: Time, e: O.Entry,
                                   alert: P.AlertContext, answers: P.Answers)
    requires IsRun(s, ops) && i < j < |s| && ops[i].RecordUnauthorized?
    requires Outcomes.RecordedUnauthorized(s[i].t, ops[i].now, ops[i].id, ops[i].token, ops[i].d, ops[i].userId,
                                           ops[i].deviceId).1.Ok?
    requires e.deviceId == ops[i].deviceId && Reflects(answers.device, s[j].t.devices, e.deviceId)
    ensures match Attempt.PlanAttempt(now, e, alert, answers) case Ok(plan) => plan.action.Cancel? case Err(_) => true
  {
    hide P.Evaluate, Backoff.Delay, Attempt.PlanAttempt, Outcomes.RecordedUnauthorized, Enabled, DeviceRegistry.Inv,
         Initial;
    assert Follows(s, ops, i);
    var op := ops[i];
    Outcomes.UnauthorizedIsWhole(s[i].t, op.now, op.id, op.token, op.d, op.userId, op.deviceId);
    DevicesPersist(s, ops, i + 1, j);
    Attempt.NeverSendsToRevoked(now, e, alert, answers);
  }

  /** Nor does any worker's step, in any later state of the run, for any entry for that device, follow a send. */
  lemma UnauthorizedSilencesWorkers(s: seq<Db>, ops: seq<Op>, i: nat, j: nat, now: Time, e: O.Entry, cfg: Config,
                                    device: Lookup<D.Registration>, alert: Option<P.AlertContext>, answers: P.Answers,
                                    sent: Sent)
    requires IsRun(s, ops) && i < j < |s| && ops[i].RecordUnauthorized?
    requires Outcomes.RecordedUnauthorized(s[i].t, ops[i].now, ops[i].id, ops[i].token, ops[i].d, ops[i].userId,
                                           ops[i].deviceId).1.Ok?
    requires e.deviceId == ops[i].deviceId && Reflects(answers.device, s[j].t.devices, e.deviceId)
    ensures match HandleClaimed(now, e, cfg, device, alert, answers, sent)
            case Some(op) => !FollowsSend(op)
            case None => true
  {
    hide IsRun, P.Evaluate, HandleClaimed, Outcomes.RecordedUnauthorized, Reflects;
    SendsExactlyEligible(now, e, cfg, device, alert, answers, sent);
    if alert.Some? {
      UnauthorizedSilencesDevice(s, ops, i, j, now, e, alert.value, answers);
      Attempt.PlanExactly(now, e, alert.value, answers);
    }
  }

  lemma {:induction false} DevicesPersist(s: seq<Db>, ops: seq<Op>, i: nat, j: nat)
    requires IsRun(s, ops) && i <= j < |s|
    ensures DeviceRegistry.Persists(s[i].t.devices, s[j].t.devices)
  {
    hide Step, Enabled, Initial, DeviceRegistry.Inv, Inv;
    if i < j {
      DevicesPersist(s, ops, i, j - 1);
      assert Follows(s, ops, j - 1);
      RunInv(s, ops, j - 1);
      InvDevices(s[j - 1]);
      StepKeepsDeviceInv(s[j - 1], ops[j - 1]);
    }
  }

  lemma InvDevices(db: Db)
    requires Inv(db)
    ensures DeviceRegistry.Inv(db.t.devices)
  {
  }
}
