/** The documents the two terminals read and write in the record store,
    and the feedback signals they send to the terminal's actuator. */
module Records {

  datatype Option<T> = None | Some(value: T)

  /** A driver's document in the `users` collection. `barangay` may be absent
      from the document; the other fields are taken to be present. */
  datatype Account = Account(
    uid: string,
    name: string,
    barangay: Option<string>,
    tricycleNumber: string,
    balance: int,
    inQueue: bool)

  /** The barangay used when a user document has none. */
  const DefaultBarangay: string := "default_barangay"

  /** `user_data.get('barangay', 'default_barangay')` */
  function BarangayOf(a: Account): (r: string)
    ensures a.barangay.Some? ==> r == a.barangay.value
    ensures a.barangay.None? ==> r == DefaultBarangay
  {
    match a.barangay
    case Some(b) => b
    case None => DefaultBarangay
  }

  /** A queue document lives at barangays/{barangay}/queue/{uid}. */
  type QueueKey = (string, string)

  /** The body of a queue document (its join time is a server timestamp, left out). */
  datatype QueueEntry = QueueEntry(uid: string, name: string, tricycleNumber: string, inQueue: bool)

  /** A row of a user's `queueing-transactions` sub-collection (timestamp left out). */
  datatype Txn = Txn(amount: int, description: string)

  const QueueEntryDescription: string := "Queue Entry"
  const LeftQueueDescription: string := "Left Queue"

  datatype Action = Join | Leave

  /** A row of the global `queueing_history` collection; only joins carry an amount. */
  datatype HistoryRow = HistoryRow(
    driverId: string,
    name: string,
    barangay: string,
    action: Action,
    amount: Option<int>)

  /** One request to the actuator: `/red_led`, `/green_led` or `/activate_buzzer`. */
  datatype Signal = RedLed | GreenLed | Buzzer
}
