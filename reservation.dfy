/** The reservation record (`api/models/Reservation.ts`). */
module Reservations {
  import opened Js
  import opened Groups
  import opened TicketTypes

  /** A reservation: its id, its event, the optional `member_all` count, its group,
      and the ticket type it reserved. `reserved_ticket_type` is read by the
      tracker and by modification although the record type does not declare it. */
  datatype Reservation = Reservation(
    reservationId: string,
    event: DocRef,
    memberAll: Option<int>,
    groupData: Group,
    reservedTicketType: TicketType)
}
