/** What a worker may do with the entry it has claimed. */
module NotifyAttempt {
  import opened Prelude
  import O = NotifyOutbox
  import P = NotifyPreferences

  const MAX_INT := 0x7fff_ffff_ffff_ffff

  datatype Error = Input | NotPlannable | PolicyUnresolved | Evaluation(cause: P.Error)

  datatype Action = Send | Cancel

  datatype Plan = Plan(action: Action, reason: P.Reason, attemptNumber: int)

  function DeriveAttemptNumber(e: O.Entry): Result<int, Error> {
    if e.attemptCount < 0 || e.attemptCount == MAX_INT then Err(Input) else Ok(e.attemptCount + 1)
  }

  function ValidateEntry(now: Time, e: O.Entry): Option<Error> {
    if e.id <= 0 || e.userId <= 0 || e.deviceId <= 0 || e.attemptCount < 0 || e.maxAttempts <= 0 then Some(Input)
    else if !e.state.Pending? || e.expiresAt <= now || e.attemptCount >= e.maxAttempts then Some(NotPlannable)
    else None
  }

  function ActionFor(reason: P.Reason): Result<Action, Error> {
    match reason
    case Eligible => Ok(Send)
    case QuietHours => Err(PolicyUnresolved)
    case _ => Ok(Cancel)
  }

  function PlanAttempt(now: Time, e: O.Entry, alert: P.AlertContext, a: P.Answers): Result<Plan, Error> {
    if IsZero(now) then Err(Input)
    else match ValidateEntry(now, e)
      case Some(error) => Err(error)
      case None =>
        match DeriveAttemptNumber(e)
        case Err(error) => Err(error)
        case Ok(number) =>
          match P.Evaluate(now, e.userId, e.deviceId, alert, a)
          case Err(error) => Err(Evaluation(error))
          case Ok(reason) =>
            match ActionFor(reason)
            case Err(error) => Err(error)
            case Ok(action) => Ok(Plan(action, reason, number))
  }

  /**
   A plan exists exactly for a live entry with an attempt left whose evaluation answers anything but quiet hours; it
   takes the next number, and it sends only what is eligible.
   */
  lemma PlanExactly(now: Time, e: O.Entry, alert: P.AlertContext, a: P.Answers)
    ensures var r := PlanAttempt(now, e, alert, a);
            var verdict := P.Evaluate(now, e.userId, e.deviceId, alert, a);
            && (r.Ok? <==>
                && !IsZero(now) && e.id > 0 && e.userId > 0 && e.deviceId > 0 && e.state.Pending? && now < e.expiresAt
                && 0 <= e.attemptCount < e.maxAttempts && e.attemptCount != MAX_INT
                && verdict.Ok? && !verdict.value.QuietHours?)
            && (r.Ok? ==> r.value.attemptNumber == e.attemptCount + 1 && verdict == Ok(r.value.reason)
                          && (r.value.action.Send? <==> r.value.reason.Eligible?))
  {
    hide P.Evaluate;
  }

  /** No plan ever sends to a revoked device. */
  lemma NeverSendsToRevoked(now: Time, e: O.Entry, alert: P.AlertContext, a: P.Answers)
    requires a.device.Found? ==> a.device.value.revokedAt.Some?
    ensures match PlanAttempt(now, e, alert, a) case Ok(plan) => plan.action.Cancel? case Err(_) => true
  {
    hide P.Evaluate;
    P.RevokedIsNeverEligible(now, e.userId, e.deviceId, alert, a);
  }
}
