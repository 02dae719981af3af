/**
 May this alert reach this device now? A fixed-priority chain of lookups, each of which may find a row, find none or
 fail. What a time zone makes of the clock is a parameter.
 */
module NotifyPreferences {
  import opened Prelude
  import D = NotifyDevices
  import Identity

  datatype Channel = CH1A | CH2B | CH3B | CH4C | OtherChannel

  datatype Reason =
    | Eligible | AccountNotActive | DeviceNotActive | ConsentNotGranted | NotificationsDisabled | ChannelNotSelected
    | ToneSetNotSelected | KeywordListNotSelected | BelowMinConfidence | QuietHours

  datatype Error = Input | Unavailable

  datatype AlertContext = AlertContext(channel: Channel, toneSetId: Option<string>, keywordListId: Option<string>,
                                       confidence: Option<real>)

  /** Quiet hours are offsets into the day. */
  datatype Preferences = Preferences(enabled: bool, channels: seq<Channel>, toneSetIds: seq<string>,
                                     keywordListIds: seq<string>,
                                     minConfidence: Option<real>, quietStart: Option<Time>, quietEnd: Option<Time>,
                                           zone: Option<string>)

  /** The four stores' answers and the local time of day in a zone, if the zone is known. */
  datatype Answers = Answers(account: Lookup<Identity.AccountState>, device: Lookup<D.Registration>,
                             consent: Lookup<bool>, preferences: Lookup<Preferences>, timeOfDay: string -> Option<Time>)

  const DAY: Time := 24 * 3600 * 1_000_000_000

  predicate ValidId(s: string) {
    && 1 <= |s| <= 128 && D.AlphaNumeric(s[0])
    && forall i :: 1 <= i < |s| ==> D.AlphaNumeric(s[i]) || s[i] == '_' || s[i] == '-'
  }

  predicate ValidOptionalId(id: Option<string>) {
    match id
    case Some(s) => ValidId(s)
    case None => true
  }

  predicate ValidInput(user: int, device: int, alert: AlertContext) {
    && user > 0 && device > 0 && !alert.channel.OtherChannel?
    && alert.toneSetId.Some? != alert.keywordListId.Some?
    && ValidOptionalId(alert.toneSetId) && ValidOptionalId(alert.keywordListId)
    && match alert.confidence
       case Some(c) => 0.0 <= c <= 1.0
       case None => true
  }

  /** `None` stands for an error. */
  function CurrentlyQuietHours(timeOfDay: string -> Option<Time>, p: Preferences): Option<bool> {
    if p.quietStart.Some? != p.quietEnd.Some? then None
    else match (p.quietStart, p.quietEnd)
      case (Some(start), Some(end)) => (
        match p.zone
        case None => None
        case Some(zone) =>
          match timeOfDay(zone)
          case None => None
          case Some(now) =>
            if start == end then Some(false)
            else if start < end then Some(start <= now < end)
            else Some(now >= start || now < end))
      case _ => Some(false)
  }

  function Evaluate(now: Time, user: int, device: int, alert: AlertContext, a: Answers): Result<Reason, Error> {
    if IsZero(now) || !ValidInput(user, device, alert) then Err(Input)
    else match a.account
      case Failed => Err(Unavailable)
      case Missing => Ok(AccountNotActive)
      case Found(state) => if !Identity.CanAuthenticate(state) then Ok(AccountNotActive) else
        match a.device
        case Failed => Err(Unavailable)
        case Missing => Ok(DeviceNotActive)
        case Found(reg) => if reg.revokedAt.Some? || reg.userId != user then Ok(DeviceNotActive) else
          match a.consent
          case Failed => Err(Unavailable)
          case Missing => Ok(ConsentNotGranted)
          case Found(granted) => if !granted then Ok(ConsentNotGranted) else
            match a.preferences
            case Failed => Err(Unavailable)
            case Missing => Ok(NotificationsDisabled)
            case Found(p) => EvaluatePreferences(alert, a.timeOfDay, p)
  }

  function EvaluatePreferences(alert: AlertContext, timeOfDay: string -> Option<Time>,
                               p: Preferences): Result<Reason, Error> {
    if !p.enabled then Ok(NotificationsDisabled)
    else if alert.channel !in p.channels then Ok(ChannelNotSelected)
    else if alert.toneSetId.Some? && alert.toneSetId.value !in p.toneSetIds then Ok(ToneSetNotSelected)
    else if alert.toneSetId.None? && alert.keywordListId.Some? && alert.keywordListId.value !in p.keywordListIds then
      Ok(KeywordListNotSelected)
    else if p.minConfidence.Some? && (alert.confidence.None? || alert.confidence.value < p.minConfidence.value) then
      Ok(BelowMinConfidence)
    else match CurrentlyQuietHours(timeOfDay, p)
      case None => Err(Unavailable)
      case Some(quiet) => if quiet then Ok(QuietHours) else Ok(Eligible)
  }

  // What the chain means

  predicate Is<T(==)>(l: Lookup<T>, x: T) {
    l == Found(x)
  }

  /** The gate a reason names is the one that is shut; an unavailable lookup leaves it undecided. */
  predicate Shut(r: Reason, user: int, alert: AlertContext, a: Answers) {
    match r
    case AccountNotActive => a.account.Missing? || (a.account.Found? && a.account.value != Identity.Active)
    case DeviceNotActive =>
      a.device.Missing? || (a.device.Found? && (a.device.value.revokedAt.Some? || a.device.value.userId != user))
    case ConsentNotGranted => a.consent.Missing? || Is(a.consent, false)
    case NotificationsDisabled => a.preferences.Missing? || (a.preferences.Found? && !a.preferences.value.enabled)
    case ChannelNotSelected => a.preferences.Found? && alert.channel !in a.preferences.value.channels
    case ToneSetNotSelected =>
      a.preferences.Found? && alert.toneSetId.Some? && alert.toneSetId.value !in a.preferences.value.toneSetIds
    case KeywordListNotSelected =>
      a.preferences.Found? && alert.keywordListId.Some?
      && alert.keywordListId.value !in a.preferences.value.keywordListIds
    case BelowMinConfidence =>
      a.preferences.Found? && a.preferences.value.minConfidence.Some?
      && (alert.confidence.None? || alert.confidence.value < a.preferences.value.minConfidence.value)
    case QuietHours => a.preferences.Found? && CurrentlyQuietHours(a.timeOfDay, a.preferences.value) == Some(true)
    case Eligible => false
  }

  /** A gate whose lookup could not be made. */
  predicate Undecided(r: Reason, a: Answers) {
    match r
    case AccountNotActive => a.account.Failed?
    case DeviceNotActive => a.device.Failed?
    case ConsentNotGranted => a.consent.Failed?
    case NotificationsDisabled => a.preferences.Failed?
    case QuietHours => a.preferences.Found? && CurrentlyQuietHours(a.timeOfDay, a.preferences.value).None?
    case _ => false
  }

  /** The gates in the order they are tried. */
  function Gates(): seq<Reason> {
    [AccountNotActive, DeviceNotActive, ConsentNotGranted, NotificationsDisabled, ChannelNotSelected,
     ToneSetNotSelected, KeywordListNotSelected, BelowMinConfidence, QuietHours]
  }

  /** The answer of the first gate that is not open. */
  function FirstClosed(gates: seq<Reason>, user: int, alert: AlertContext, a: Answers): Result<Reason, Error> {
    if gates == [] then Ok(Eligible)
    else if Undecided(gates[0], a) then Err(Unavailable)
    else if Shut(gates[0], user, alert, a) then Ok(gates[0])
    else FirstClosed(gates[1..], user, alert, a)
  }

  lemma Unroll(gates: seq<Reason>, user: int, alert: AlertContext, a: Answers)
    requires |gates| > 0
    ensures FirstClosed(gates, user, alert, a) ==
            (if Undecided(gates[0], a) then Err(Unavailable)
             else if Shut(gates[0], user, alert, a) then Ok(gates[0])
             else FirstClosed(gates[1..], user, alert, a))
  {
  }

  /** The nested chain is the first closed gate in priority order. */
  lemma EvaluateIsFirstClosed(now: Time, user: int, device: int, alert: AlertContext, a: Answers)
    requires !IsZero(now) && ValidInput(user, device, alert)
    ensures Evaluate(now, user, device, alert, a) == FirstClosed(Gates(), user, alert, a)
  {
    hide FirstClosed, CurrentlyQuietHours, ValidOptionalId;
    var g := Gates();
    Unroll(g, user, alert, a);
    Unroll(g[1..], user, alert, a);
    Unroll(g[2..], user, alert, a);
    Unroll(g[3..], user, alert, a);
    PreferenceGates(user, device, alert, a);
    assert g[1..][1..] == g[2..] && g[2..][1..] == g[3..] && g[3..][1..] == g[4..];
  }

  lemma PreferenceGates(user: int, device: int, alert: AlertContext, a: Answers)
    requires ValidInput(user, device, alert)
    ensures a.preferences.Found? && a.preferences.value.enabled ==>
              EvaluatePreferences(alert, a.timeOfDay, a.preferences.value) == FirstClosed(Gates()[4..], user, alert, a)
  {
    hide FirstClosed, CurrentlyQuietHours, ValidOptionalId;
    var g := Gates()[4..];
    Unroll(g, user, alert, a);
    Unroll(g[1..], user, alert, a);
    Unroll(g[2..], user, alert, a);
    Unroll(g[3..], user, alert, a);
    Unroll(g[4..], user, alert, a);
    assert g[1..][1..] == g[2..] && g[2..][1..] == g[3..] && g[3..][1..] == g[4..];
    NoGates(g[4..][1..], user, alert, a);
  }

  lemma NoGates(gates: seq<Reason>, user: int, alert: AlertContext, a: Answers)
    requires gates == []
    ensures FirstClosed(gates, user, alert, a) == Ok(Eligible)
  {
  }

  /** Quiet hours wrap around midnight: the clock is inside when it is less far past the start than the end is. */
  lemma QuietHoursWrap(timeOfDay: string -> Option<Time>, p: Preferences, start: Time, end: Time, zone: string,
                       now: Time)
    requires p.quietStart == Some(start) && p.quietEnd == Some(end) && p.zone == Some(zone)
             && timeOfDay(zone) == Some(now)
    requires 0 <= start < DAY && 0 <= end < DAY && 0 <= now < DAY
    ensures CurrentlyQuietHours(timeOfDay, p) == Some((now - start) % DAY < (end - start) % DAY)
  {
    Wrap(now - start);
    Wrap(end - start);
  }

  lemma Wrap(x: int)
    requires -DAY < x < DAY
    ensures x % DAY == if x < 0 then x + DAY else x
  {
  }

  /** Without quiet hours there is no quiet; with half of them, or without a known zone, the question has no answer. */
  lemma QuietHoursUnset(timeOfDay: string -> Option<Time>, p: Preferences)
    ensures p.quietStart.None? && p.quietEnd.None? ==> CurrentlyQuietHours(timeOfDay, p) == Some(false)
    ensures p.quietStart.Some? != p.quietEnd.Some? ==> CurrentlyQuietHours(timeOfDay, p) == None
    ensures p.quietStart.Some? && p.quietEnd.Some? ==>
              (CurrentlyQuietHours(timeOfDay, p).None? <==> p.zone.None? || timeOfDay(p.zone.value).None?)
  {
  }

  /**
   Malformed input is told apart from everything the lookups may answer: no clock, no user or device, an unknown
   channel, both or neither of the two ids, a malformed one, or a confidence that is not between nought and one.
   */
  lemma InvalidInputIsInput(now: Time, user: int, device: int, alert: AlertContext, a: Answers)
    ensures Evaluate(now, user, device, alert, a) == Err(Input) <==>
            || now == 0 || user < 1 || device < 1 || alert.channel == OtherChannel
            || (alert.toneSetId.None? && alert.keywordListId.None?)
            || (alert.toneSetId.Some? && alert.keywordListId.Some?)
            || (alert.toneSetId.Some? && !ValidId(alert.toneSetId.value))
            || (alert.keywordListId.Some? && !ValidId(alert.keywordListId.value))
            || (alert.confidence.Some? && (alert.confidence.value < 0.0 || 1.0 < alert.confidence.value))
  {
    hide ValidId, CurrentlyQuietHours;
  }

  /** A revoked registration is never eligible. */
  lemma RevokedIsNeverEligible(now: Time, user: int, device: int, alert: AlertContext, a: Answers)
    requires a.device.Found? ==> a.device.value.revokedAt.Some?
    ensures Evaluate(now, user, device, alert, a) != Ok(Eligible)
  {
  }
}
