/** Bind-once wristbands (`WristBand.ts`). */
module WristBands {
  import opened Js
  import opened SafeAs
  import opened ReferenceCollection

  datatype WristBand = WristBand(wristbandId: string, reserverId: string, ticketId: string)

  function WristBandRef(rc: Collections, wristBandId: string): DocRef
  {
    DocRef(rc.wristBandCollection, wristBandId)
  }

  /** The document a bound wristband is stored as. */
  function WristBandFields(reserverId: string, ticketId: string): Fields
  {
    map["reserverID" := Str(reserverId), "ticketID" := Str(ticketId)]
  }

  /** `bindWristband`: refuses (false, nothing written) a wristband that already has
      a document; otherwise stores its reserver and ticket and returns true. No
      other document changes. */
  method BindWristband(db: Firestore, rc: Collections, wristBandId: string, reserverId: string, ticketId: string)
    returns (bound: bool)
    modifies db
    ensures bound <==> WristBandRef(rc, wristBandId) !in old(db.docs)
    ensures db.docs == if bound then old(db.docs)[WristBandRef(rc, wristBandId) := WristBandFields(reserverId, ticketId)]
                       else old(db.docs)
  {
    var ref := WristBandRef(rc, wristBandId);
    if ref in db.docs {
      return false;
    }
    db.Set(ref, WristBandFields(reserverId, ticketId));
    return true;
  }

  /** `getWristband`: undefined (None) for a missing document or one whose
      `reserverID` or `ticketID` is not a string; otherwise the wristband under the
      requested id. */
  function GetWristband(store: Store, rc: Collections, wristBandId: string): (r: Option<WristBand>)
    ensures r.Some? <==> WristBandRef(rc, wristBandId) in store &&
                         Read(store, WristBandRef(rc, wristBandId)).Get("reserverID").Str? &&
                         Read(store, WristBandRef(rc, wristBandId)).Get("ticketID").Str?
    ensures r.Some? ==> r.value.wristbandId == wristBandId &&
                        Str(r.value.reserverId) == store[WristBandRef(rc, wristBandId)]["reserverID"] &&
                        Str(r.value.ticketId) == store[WristBandRef(rc, wristBandId)]["ticketID"]
  {
    var data := Read(store, WristBandRef(rc, wristBandId));
    if !data.present then None
    else
      var reserverId := SafeAsString(data.Get("reserverID"));
      var ticketId := SafeAsString(data.Get("ticketID"));
      if reserverId.None? || ticketId.None? then None
      else Some(WristBand(wristBandId, reserverId.value, ticketId.value))
  }

  /** Round trip: reading a wristband right after binding it gives back its
      reserver and ticket, under its own id. */
  lemma BindThenGet(store: Store, rc: Collections, wristBandId: string, reserverId: string, ticketId: string)
    ensures GetWristband(store[WristBandRef(rc, wristBandId) := WristBandFields(reserverId, ticketId)], rc, wristBandId)
            == Some(WristBand(wristBandId, reserverId, ticketId))
  {
  }

  /** A bound wristband cannot be rebound: the second bind is refused and the first
      binding stays readable. */
  method BindTwice(db: Firestore, rc: Collections, wristBandId: string,
                   reserverId: string, ticketId: string, otherReserverId: string, otherTicketId: string)
    returns (first: bool, second: bool)
    modifies db
    ensures !second
    ensures first ==> GetWristband(db.docs, rc, wristBandId) == Some(WristBand(wristBandId, reserverId, ticketId))
    ensures !first ==> db.docs == old(db.docs)
  {
    first := BindWristband(db, rc, wristBandId, reserverId, ticketId);
    second := BindWristband(db, rc, wristBandId, otherReserverId, otherTicketId);
    if first {
      BindThenGet(old(db.docs), rc, wristBandId, reserverId, ticketId);
    }
  }
}
