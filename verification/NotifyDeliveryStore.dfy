/** The append-only audit table: one INSERT, refused unless the row is valid and tied to an outbox row. */
module NotifyDeliveryStore {
  import opened Prelude
  import opened NotifyDelivery
  import DB = NotifyDatabase

  datatype Error = Input | Unavailable

  class Postgres {
    const db: DB.Database

    constructor (db: DB.Database)
      ensures this.db == db
    {
      this.db := db;
    }

    method Record(d: Delivery) returns (r: Result<Delivery, Error>)
      modifies db`deliveries
      ensures match r
              case Ok(row) => row == d && Recordable(db.outbox, d) && db.deliveries == old(db.deliveries) + [d]
              case Err(Input) => !Recordable(db.outbox, d) && db.deliveries == old(db.deliveries)
              case Err(Unavailable) =>
                db.deliveries == old(db.deliveries)
                || (Recordable(db.outbox, d) && db.deliveries == old(db.deliveries) + [d])
    {
      if !Valid(d) {
        return Err(Input);
      }
      var up := db.Reach();
      if !up {
        return Err(Unavailable);
      }
      if !Tied(db.outbox, d) {
        return Err(Input);
      }
      db.deliveries := db.deliveries + [d];
      up := db.Reach();
      return if up then Ok(d) else Err(Unavailable);
    }
  }
}
