/** The event record (`api/models/ReservableEvent.ts`) and the capacity ledger's
    answers, which `Modify.ts` imports from the same module. */
module ReservableEvents {
  import opened Js

  /** The scalar fields of an event. Its list of reservations and its required
      event are declared in the type only and are left out. `event_id` is declared
      a number but is used as a document id, so it is kept as a string. */
  datatype ReservableEvent = ReservableEvent(
    eventId: string,
    displayName: string,
    description: Option<string>,
    dateStart: string,
    dateEnd: Option<string>,
    availableAt: Option<string>,
    capacity: Option<int>,
    takenCapacity: int)

  /** What the capacity ledger (`addTakenCapacity`) answers. The members of this
      enumeration are not part of this model's sources: they are taken to be the
      three `Modify.ts` switches on and `EventNotFound`, the answer for a missing
      event. Callers receive the answer as a parameter. */
  datatype ReservationStatus = Reserved | CapacityOver | EventNotFound | TransactionFailed
}
