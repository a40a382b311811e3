/** Modifying or cancelling a reservation (`Modify.ts`). */
module Modify {
  import opened Js
  import opened Groups
  import opened Reservations
  import Ledger = ReservableEvents

  /** `ModifyStatus`. */
  datatype ModifyStatus = TransactionFailed | CapacityOver | Modified | InvalidReservationData | ReservationNotFound | Cancelled

  /** One call of the capacity ledger: the event and the headcount change asked for. */
  datatype CapacityCall = CapacityCall(event: DocRef, delta: int)

  /** A reservation document as `reservationFromDocument` decodes it: the
      reservation, or null for a document it cannot read. */
  datatype StoredReservation = Readable(reservation: Reservation) | Unreadable

  /** The reservations of every user, by user id and then by reservation id. */
  type Table = map<string, map<string, StoredReservation>>

  /** A user's reservations; a user with none has an empty table. */
  function UserTable(table: Table, uid: string): map<string, StoredReservation>
  {
    if uid in table then table[uid] else map[]
  }

  /** The headcount change `updateTakenCapacity` asks the ledger for: what takes the
      reserved headcount to the new one. */
  function CapacityDelta(toUpdate: Group, reservedGroup: Group): (delta: int)
    ensures reservedGroup.headcount + delta == toUpdate.headcount
    ensures delta == 0 <==> toUpdate.headcount == reservedGroup.headcount
  {
    toUpdate.headcount - reservedGroup.headcount
  }

  /** The `switch` on the ledger's answer: a failed transaction and an exceeded
      capacity become the same-named status; every other answer, `EventNotFound`
      included since the switch has no case and no default for it, falls through
      as success (null). */
  function LedgerVerdict(answer: Ledger.ReservationStatus): (r: Option<ModifyStatus>)
    ensures r == Some(TransactionFailed) <==> answer == Ledger.TransactionFailed
    ensures r == Some(CapacityOver) <==> answer == Ledger.CapacityOver
    ensures r.None? <==> answer == Ledger.Reserved || answer == Ledger.EventNotFound
  {
    match answer
    case TransactionFailed => Some(TransactionFailed)
    case CapacityOver => Some(CapacityOver)
    case _ => None
  }

  /** The ledger answers under which the modification goes ahead. */
  predicate Accepted(answer: Ledger.ReservationStatus)
  {
    answer == Ledger.Reserved || answer == Ledger.EventNotFound
  }

  /** The record written back for a modified reservation: same id, event and ticket
      type, the new group, and `member_all` set to the new headcount. */
  function Rewritten(reservation: Reservation, toUpdate: Group): Reservation
  {
    Reservation(reservation.reservationId, reservation.event, Some(toUpdate.headcount), toUpdate, reservation.reservedTicketType)
  }

  /** What one `modifyReservation` does: the status it returns, the reservations
      afterwards and the ledger calls made so far. */
  datatype ModifyEffect = ModifyEffect(status: ModifyStatus, table: Table, calls: seq<CapacityCall>)

  /** The outcome of `modifyReservation` for user `uid`, reservation `reservationId`
      and the new group `toUpdate`, given the ledger's answer should it be asked.
      The reservation is looked up by `reservationId` and written back under the id
      it decodes with. */
  function ModifyEffectOf(table: Table, calls: seq<CapacityCall>, uid: string, reservationId: string,
                          toUpdate: Group, answer: Ledger.ReservationStatus): ModifyEffect
  {
    var rows := UserTable(table, uid);
    if reservationId !in rows then ModifyEffect(ReservationNotFound, table, calls)
    else match rows[reservationId]
      case Unreadable => ModifyEffect(InvalidReservationData, table, calls)
      case Readable(reservation) =>
        var delta := CapacityDelta(toUpdate, reservation.groupData);
        var after := if delta == 0 then calls else calls + [CapacityCall(reservation.event, delta)];
        var verdict := if delta == 0 then None else LedgerVerdict(answer);
        if verdict.Some? then ModifyEffect(verdict.value, table, after)
        else if toUpdate.headcount == 0 then
          ModifyEffect(Cancelled, table[uid := rows - {reservation.reservationId}], after)
        else
          ModifyEffect(Modified, table[uid := rows[reservation.reservationId := Readable(Rewritten(reservation, toUpdate))]], after)
  }

  /** The total headcount change asked of the ledger for one event. */
  function RequestedDelta(calls: seq<CapacityCall>, event: DocRef): int
  {
    if calls == [] then 0
    else
      var last := calls[|calls| - 1];
      RequestedDelta(calls[..|calls| - 1], event) + (if last.event == event then last.delta else 0)
  }

  lemma RequestedDeltaAppend(calls: seq<CapacityCall>, call: CapacityCall, event: DocRef)
    ensures RequestedDelta(calls + [call], event)
            == RequestedDelta(calls, event) + (if call.event == event then call.delta else 0)
  {
    assert (calls + [call])[..|calls|] == calls;
  }

  /** A missing reservation is reported and nothing changes. */
  lemma ModifyMissingChangesNothing(table: Table, calls: seq<CapacityCall>, uid: string, reservationId: string,
                                    toUpdate: Group, answer: Ledger.ReservationStatus)
    requires reservationId !in UserTable(table, uid)
    ensures ModifyEffectOf(table, calls, uid, reservationId, toUpdate, answer) == ModifyEffect(ReservationNotFound, table, calls)
  {
  }

  /** An unreadable reservation is reported and nothing changes. */
  lemma ModifyUnreadableChangesNothing(table: Table, calls: seq<CapacityCall>, uid: string, reservationId: string,
                                       toUpdate: Group, answer: Ledger.ReservationStatus)
    requires reservationId in UserTable(table, uid) && UserTable(table, uid)[reservationId] == Unreadable
    ensures ModifyEffectOf(table, calls, uid, reservationId, toUpdate, answer) == ModifyEffect(InvalidReservationData, table, calls)
  {
  }

  /** An unchanged headcount makes no ledger call, so the ledger's answer plays no
      part, and the modification always goes ahead. */
  lemma ModifySameHeadcountSkipsLedger(table: Table, calls: seq<CapacityCall>, uid: string, reservationId: string,
                                       toUpdate: Group, answer: Ledger.ReservationStatus, other: Ledger.ReservationStatus)
    requires reservationId in UserTable(table, uid) && UserTable(table, uid)[reservationId].Readable?
    requires toUpdate.headcount == UserTable(table, uid)[reservationId].reservation.groupData.headcount
    ensures var e := ModifyEffectOf(table, calls, uid, reservationId, toUpdate, answer);
            && e.calls == calls
            && (e.status == Modified || e.status == Cancelled)
            && e == ModifyEffectOf(table, calls, uid, reservationId, toUpdate, other)
  {
  }

  /** A ledger refusal is returned as the same-named status: the ledger was asked
      for the delta, and the reservation is left as it was. */
  lemma ModifyLedgerRefusal(table: Table, calls: seq<CapacityCall>, uid: string, reservationId: string,
                            toUpdate: Group, answer: Ledger.ReservationStatus)
    requires reservationId in UserTable(table, uid) && UserTable(table, uid)[reservationId].Readable?
    requires toUpdate.headcount != UserTable(table, uid)[reservationId].reservation.groupData.headcount
    requires !Accepted(answer)
    ensures var r := UserTable(table, uid)[reservationId].reservation;
            var e := ModifyEffectOf(table, calls, uid, reservationId, toUpdate, answer);
            && e.status == (if answer == Ledger.TransactionFailed then TransactionFailed else CapacityOver)
            && e.table == table
            && e.calls == calls + [CapacityCall(r.event, toUpdate.headcount - r.groupData.headcount)]
  {
  }

  /** The ledger answering `EventNotFound` is treated exactly like `Reserved`. */
  lemma ModifyEventNotFoundIsSuccess(table: Table, calls: seq<CapacityCall>, uid: string, reservationId: string, toUpdate: Group)
    ensures ModifyEffectOf(table, calls, uid, reservationId, toUpdate, Ledger.EventNotFound)
            == ModifyEffectOf(table, calls, uid, reservationId, toUpdate, Ledger.Reserved)
  {
  }

  /** A new headcount of 0 releases the whole reserved headcount and deletes the
      reservation; the user's other reservations stay. */
  lemma ModifyToZeroCancels(table: Table, calls: seq<CapacityCall>, uid: string, reservationId: string,
                            toUpdate: Group, answer: Ledger.ReservationStatus)
    requires reservationId in UserTable(table, uid) && UserTable(table, uid)[reservationId].Readable?
    requires toUpdate.headcount == 0 && Accepted(answer)
    ensures var r := UserTable(table, uid)[reservationId].reservation;
            var e := ModifyEffectOf(table, calls, uid, reservationId, toUpdate, answer);
            && e.status == Cancelled
            && r.reservationId !in UserTable(e.table, uid)
            && (forall id :: id != r.reservationId ==>
                  (id in UserTable(e.table, uid) <==> id in UserTable(table, uid)) &&
                  (id in UserTable(table, uid) ==> UserTable(e.table, uid)[id] == UserTable(table, uid)[id]))
            && RequestedDelta(e.calls, r.event) == RequestedDelta(calls, r.event) - r.groupData.headcount
  {
    var r := UserTable(table, uid)[reservationId].reservation;
    if r.groupData.headcount != 0 {
      RequestedDeltaAppend(calls, CapacityCall(r.event, -r.groupData.headcount), r.event);
    }
  }

  /** Any other accepted change rewrites the reservation with the new group and
      `member_all` equal to its headcount, keeping id, event and ticket type, and
      asks the ledger for exactly the difference in headcount. */
  lemma ModifyRewrites(table: Table, calls: seq<CapacityCall>, uid: string, reservationId: string,
                       toUpdate: Group, answer: Ledger.ReservationStatus)
    requires reservationId in UserTable(table, uid) && UserTable(table, uid)[reservationId].Readable?
    requires toUpdate.headcount != 0 && Accepted(answer)
    ensures var r := UserTable(table, uid)[reservationId].reservation;
            var e := ModifyEffectOf(table, calls, uid, reservationId, toUpdate, answer);
            && e.status == Modified
            && r.reservationId in UserTable(e.table, uid)
            && UserTable(e.table, uid)[r.reservationId]
               == Readable(Reservation(r.reservationId, r.event, Some(toUpdate.headcount), toUpdate, r.reservedTicketType))
            && (forall id :: id != r.reservationId ==>
                  (id in UserTable(e.table, uid) <==> id in UserTable(table, uid)) &&
                  (id in UserTable(table, uid) ==> UserTable(e.table, uid)[id] == UserTable(table, uid)[id]))
            && RequestedDelta(e.calls, r.event)
               == RequestedDelta(calls, r.event) + toUpdate.headcount - r.groupData.headcount
  {
    var r := UserTable(table, uid)[reservationId].reservation;
    if toUpdate.headcount != r.groupData.headcount {
      RequestedDeltaAppend(calls, CapacityCall(r.event, toUpdate.headcount - r.groupData.headcount), r.event);
    }
  }

  /** Whatever the outcome, other users' reservations are untouched and at most
      one ledger call is added. */
  lemma ModifyFrame(table: Table, calls: seq<CapacityCall>, uid: string, reservationId: string,
                    toUpdate: Group, answer: Ledger.ReservationStatus)
    ensures var e := ModifyEffectOf(table, calls, uid, reservationId, toUpdate, answer);
            && (forall u :: u != uid ==> (u in e.table <==> u in table) && (u in table ==> e.table[u] == table[u]))
            && (e.calls == calls || (|e.calls| == |calls| + 1 && e.calls[..|calls|] == calls))
  {
    var e := ModifyEffectOf(table, calls, uid, reservationId, toUpdate, answer);
    if e.calls != calls {
      var rows := UserTable(table, uid);
      var r := rows[reservationId].reservation;
      assert e.calls == calls + [CapacityCall(r.event, toUpdate.headcount - r.groupData.headcount)];
      assert e.calls[..|calls|] == calls;
    }
  }

  /** Modifying a reservation and then modifying it back to its original group
      restores that group, and the two ledger requests cancel out. */
  lemma ModifyBackRestores(table: Table, calls: seq<CapacityCall>, uid: string, reservationId: string,
                           toUpdate: Group, answer: Ledger.ReservationStatus, answerBack: Ledger.ReservationStatus)
    requires reservationId in UserTable(table, uid) && UserTable(table, uid)[reservationId].Readable?
    requires UserTable(table, uid)[reservationId].reservation.reservationId == reservationId
    requires toUpdate.headcount != 0 && Accepted(answer) && Accepted(answerBack)
    requires UserTable(table, uid)[reservationId].reservation.groupData.headcount != 0
    ensures var r := UserTable(table, uid)[reservationId].reservation;
            var e1 := ModifyEffectOf(table, calls, uid, reservationId, toUpdate, answer);
            var e2 := ModifyEffectOf(e1.table, e1.calls, uid, reservationId, r.groupData, answerBack);
            && e2.status == Modified
            && UserTable(e2.table, uid)[reservationId] == Readable(Rewritten(r, r.groupData))
            && RequestedDelta(e2.calls, r.event) == RequestedDelta(calls, r.event)
  {
    var r := UserTable(table, uid)[reservationId].reservation;
    ModifyRewrites(table, calls, uid, reservationId, toUpdate, answer);
    var e1 := ModifyEffectOf(table, calls, uid, reservationId, toUpdate, answer);
    assert e1.status == Modified;
    assert reservationId in UserTable(e1.table, uid);
    assert UserTable(e1.table, uid)[reservationId] == Readable(Rewritten(r, toUpdate));
    assert RequestedDelta(e1.calls, r.event) == RequestedDelta(calls, r.event) + toUpdate.headcount - r.groupData.headcount;
    ModifyRewrites(e1.table, e1.calls, uid, reservationId, r.groupData, answerBack);
    var e2 := ModifyEffectOf(e1.table, e1.calls, uid, reservationId, r.groupData, answerBack);
    assert Rewritten(Rewritten(r, toUpdate), r.groupData) == Rewritten(r, r.groupData);
    assert RequestedDelta(e2.calls, r.event) == RequestedDelta(e1.calls, r.event) + r.groupData.headcount - toUpdate.headcount;
  }

  /** The reservations and the ledger calls, both changed in place. */
  class ReservationStore {
    var table: Table
    var ledgerCalls: seq<CapacityCall>

    constructor (table: Table)
      ensures this.table == table && ledgerCalls == []
    {
      this.table := table;
      ledgerCalls := [];
    }

    /** `updateTakenCapacity`: asks the ledger for the headcount change only when
      there is one, and returns the refusal status, or null to go ahead. `answer`
      is what the ledger replies. */
    method UpdateTakenCapacity(reservation: Reservation, toUpdate: Group, reservedGroup: Group,
                               answer: Ledger.ReservationStatus)
      returns (result: Option<ModifyStatus>)
      modifies this
      ensures var delta := CapacityDelta(toUpdate, reservedGroup);
              && ledgerCalls == (if delta == 0 then old(ledgerCalls) else old(ledgerCalls) + [CapacityCall(reservation.event, delta)])
              && result == (if delta == 0 then None else LedgerVerdict(answer))
      ensures table == old(table)
    {
      var delta := toUpdate.headcount - reservedGroup.headcount;
      if delta == 0 {
        return None;
      }
      ledgerCalls := ledgerCalls + [CapacityCall(reservation.event, delta)];
      match answer {
        case Reserved =>
        case TransactionFailed => return Some(TransactionFailed);
        case CapacityOver => return Some(CapacityOver);
        case EventNotFound =>
      }
      return None;
    }

    /** `modifyReservation`. */
    method ModifyReservation(uid: string, reservationId: string, toUpdate: Group, answer: Ledger.ReservationStatus)
      returns (status: ModifyStatus)
      modifies this
      ensures ModifyEffect(status, table, ledgerCalls)
              == ModifyEffectOf(old(table), old(ledgerCalls), uid, reservationId, toUpdate, answer)
    {
      var rows := UserTable(table, uid);
      if reservationId !in rows {
        return ReservationNotFound;
      }
      var stored := rows[reservationId];
      if stored.Unreadable? {
        return InvalidReservationData;
      }
      var reservation := stored.reservation;
      var reservedGroup := reservation.groupData;
      var result := UpdateTakenCapacity(reservation, toUpdate, reservedGroup, answer);
      if result.Some? {
        return result.value;
      }
      if toUpdate.headcount == 0 {
        table := table[uid := rows - {reservation.reservationId}];
        return Cancelled;
      } else {
        table := table[uid := rows[reservation.reservationId := Readable(Rewritten(reservation, toUpdate))]];
        return Modified;
      }
    }
  }
}
