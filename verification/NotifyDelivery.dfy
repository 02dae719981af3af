/** Rows of the append-only delivery audit. */
module NotifyDelivery {
  import opened Prelude
  import opened NotifyOutbox

  /** The six approved values; `Unset` stands for every other text a caller may pass. */
  datatype Outcome = Sent | Failed | Expired | Canceled | DeadLetter | Unauthorized | Unset

  datatype Delivery = Delivery(outboxId: int, eventId: EventId, deviceId: int, outcome: Outcome,
                               attemptNumber: int, errorCode: Option<string>)

  predicate ValidErrorCode(code: string) {
    && 1 <= |code| <= 64 && 'a' <= code[0] <= 'z'
    && forall i :: 1 <= i < |code| ==> 'a' <= code[i] <= 'z' || '0' <= code[i] <= '9' || code[i] == '_'
  }

  predicate Valid(d: Delivery) {
    && d.outboxId > 0 && ValidEventId(d.eventId) && d.deviceId > 0 && !d.outcome.Unset? && d.attemptNumber > 0
    && match d.errorCode
       case Some(code) => ValidErrorCode(code)
       case None => true
  }

  /** The foreign key from an audit row to the outbox row it names, event and device included. */
  predicate Tied(o: Outbox, d: Delivery) {
    d.outboxId in o && ForPair(o[d.outboxId], d.eventId, d.deviceId)
  }

  /** What `Record` accepts. */
  predicate Recordable(o: Outbox, d: Delivery) {
    Valid(d) && Tied(o, d)
  }
}
