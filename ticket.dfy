/** Tickets: minting, deleting and resolving ticket documents
    (`api/models/Ticket.ts`). */
module Tickets {
  import opened Js
  import opened ReferenceCollection
  import opened TicketTypes
  import opened ReservableEvents

  datatype Ticket = Ticket(ticketId: string, ticketType: TicketType, event: ReservableEvent)

  /** The document a minted ticket is stored as: references to its ticket type and
      to its event. */
  function TicketFields(rc: Collections, ticket: TicketType, event: ReservableEvent): Fields
  {
    map["type" := Ref(DocRef(rc.ticketTypesCollection, ticket.ticketTypeId)),
        "event" := Ref(DocRef(rc.eventsCollection, event.eventId))]
  }

  /** `ticketFromRef`: reads the ticket document and follows its `event` and `type`
      references. `eventFromDoc` is the event decoder, whose body is not part of
      this model. A field that is not a reference (a missing ticket document
      included) has no `get` and raises a TypeError; an event or ticket type that
      decodes to null makes the ticket null. */
  function TicketFromRef(ref: DocRef, store: Store, eventFromDoc: Snapshot -> Option<ReservableEvent>): (r: Js<Option<Ticket>>)
    ensures r.Throw? <==> !Read(store, ref).Get("event").Ref? || !Read(store, ref).Get("type").Ref? ||
                          TicketTypeOf(Read(store, Read(store, ref).Get("type").ref)).Throw?
    ensures r.Return? && r.value.Some? ==>
              && r.value.value.ticketId == ref.id
              && TicketTypeOf(Read(store, Read(store, ref).Get("type").ref)) == Return(Some(r.value.value.ticketType))
              && eventFromDoc(Read(store, Read(store, ref).Get("event").ref)) == Some(r.value.value.event)
    ensures r.Return? ==>
              (r.value.None? <==>
                 eventFromDoc(Read(store, Read(store, ref).Get("event").ref)).None? ||
                 TicketTypeOf(Read(store, Read(store, ref).Get("type").ref)) == Return(None))
  {
    var data := Read(store, ref);
    var eventRef := data.Get("event");
    var typeRef := data.Get("type");
    if !eventRef.Ref? then Throw
    else
      var event := eventFromDoc(Read(store, eventRef.ref));
      if !typeRef.Ref? then Throw
      else
        match TicketTypeOf(Read(store, typeRef.ref))
        case Throw => Throw
        case Return(t) =>
          if event.None? || t.None? then Return(None)
          else Return(Some(Ticket(ref.id, t.value, event.value)))
  }

  /** `registerTicketsToCollection`: stores a new ticket under a fresh id of the
      tickets collection and returns that id. No existing document is overwritten
      and no document outside the tickets collection changes. */
  method RegisterTicketsToCollection(db: Firestore, rc: Collections, ticket: TicketType, event: ReservableEvent, draws: seq<string>)
    returns (id: Option<string>)
    modifies db
    ensures id.None? ==> db.docs == old(db.docs)
    ensures id.Some? ==> DocRef(rc.ticketsCollection, id.value) !in old(db.docs)
    ensures id.Some? ==> db.docs == old(db.docs)[DocRef(rc.ticketsCollection, id.value) := TicketFields(rc, ticket, event)]
    ensures forall r :: r in old(db.docs) ==> r in db.docs && db.docs[r] == old(db.docs)[r]
    ensures forall r: DocRef :: r.collection != rc.ticketsCollection ==> (r in db.docs <==> r in old(db.docs))
  {
    id := NewRandomID(db, rc.ticketsCollection, draws);
    if id.Some? {
      db.Set(DocRef(rc.ticketsCollection, id.value), TicketFields(rc, ticket, event));
    }
  }

  /** `deleteTicketsFromCollection`: removes exactly the ticket's document. */
  method DeleteTicketsFromCollection(db: Firestore, rc: Collections, ticket: Ticket)
    modifies db
    ensures db.docs == old(db.docs) - {DocRef(rc.ticketsCollection, ticket.ticketId)}
    ensures forall r: DocRef :: r.collection != rc.ticketsCollection ==>
              (r in db.docs <==> r in old(db.docs)) && (r in db.docs ==> db.docs[r] == old(db.docs)[r])
  {
    db.Delete(DocRef(rc.ticketsCollection, ticket.ticketId));
  }

  /** Round trip: a minted ticket resolves to the ticket type and the event it was
      minted for, under its new id, as long as their documents still decode to them. */
  lemma MintedTicketResolves(store: Store, rc: Collections, id: string, ticket: TicketType, event: ReservableEvent,
                             eventFromDoc: Snapshot -> Option<ReservableEvent>)
    requires rc.ticketsCollection != rc.ticketTypesCollection && rc.ticketsCollection != rc.eventsCollection
    requires TicketTypeOf(Read(store, DocRef(rc.ticketTypesCollection, ticket.ticketTypeId))) == Return(Some(ticket))
    requires eventFromDoc(Read(store, DocRef(rc.eventsCollection, event.eventId))) == Some(event)
    ensures TicketFromRef(DocRef(rc.ticketsCollection, id), store[DocRef(rc.ticketsCollection, id) := TicketFields(rc, ticket, event)], eventFromDoc)
            == Return(Some(Ticket(id, ticket, event)))
  {
    var ref := DocRef(rc.ticketsCollection, id);
    var after := store[ref := TicketFields(rc, ticket, event)];
    var typeRef := DocRef(rc.ticketTypesCollection, ticket.ticketTypeId);
    var eventRef := DocRef(rc.eventsCollection, event.eventId);
    assert Read(after, ref).Get("type") == Ref(typeRef);
    assert Read(after, ref).Get("event") == Ref(eventRef);
    assert Read(after, typeRef) == Read(store, typeRef);
    assert Read(after, eventRef) == Read(store, eventRef);
  }

  /** A deleted ticket no longer resolves: reading its missing `event` field and
      calling `get` on it raises a TypeError. */
  lemma DeletedTicketDoesNotResolve(store: Store, ref: DocRef, eventFromDoc: Snapshot -> Option<ReservableEvent>)
    ensures TicketFromRef(ref, store - {ref}, eventFromDoc) == Throw
  {
    assert Read(store - {ref}, ref).Get("event") == Undefined;
  }
}
