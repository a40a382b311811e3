/** Rooms: admission by ticket type and decoding a room document
    (`api/models/Room.ts`). */
module Rooms {
  import opened Js
  import opened Util
  import opened SafeAs
  import opened TicketTypes

  datatype Room = Room(
    capacity: Option<int>,
    roomId: string,
    displayName: string,
    permittedTickets: seq<TicketType>)

  /** The ids of the ticket types a room permits, in order. */
  function PermittedIds(room: Room): (ids: seq<string>)
    ensures |ids| == |room.permittedTickets|
    ensures forall i :: 0 <= i < |ids| ==> ids[i] == room.permittedTickets[i].ticketTypeId
  {
    seq(|room.permittedTickets|, i requires 0 <= i < |room.permittedTickets| => room.permittedTickets[i].ticketTypeId)
  }

  /** `isEnterable`: some permitted ticket type has the ticket's id. Only ids are
      compared, so a ticket type with other groups or another name under the same id
      is admitted, and a room permitting nothing admits nothing. */
  function IsEnterable(room: Room, ticket: TicketType): (r: bool)
    ensures r <==> ticket.ticketTypeId in PermittedIds(room)
    ensures room.permittedTickets == [] ==> !r
  {
    AnyOf(room.permittedTickets, (it: TicketType) => it.ticketTypeId == ticket.ticketTypeId)
  }

  /** Two ticket types with the same id are admitted to the same rooms. */
  lemma IsEnterableComparesIdsOnly(room: Room, ticket: TicketType, other: TicketType)
    requires ticket.ticketTypeId == other.ticketTypeId
    ensures IsEnterable(room, ticket) == IsEnterable(room, other)
  {
  }

  /** A permitted-ticket entry whose dereference raises a TypeError: it is not a
      reference, or its ticket-type document fails to decode that way. */
  predicate DereferenceFails(ref: Value, store: Store)
  {
    !ref.Ref? || TicketTypeOf(Read(store, ref.ref)).Throw?
  }

  /** Dereferencing every permitted-ticket reference (`Promise.all` over the
      `map`): an element that is not a document reference has no `get` and raises
      a TypeError, as does a ticket-type document that fails to decode that way. */
  function ResolveTicketTypes(refs: seq<Value>, store: Store): (r: Js<seq<Option<TicketType>>>)
    ensures r.Throw? <==> exists i :: 0 <= i < |refs| && DereferenceFails(refs[i], store)
    ensures r.Return? ==> |r.value| == |refs|
    ensures r.Return? ==> forall i :: 0 <= i < |refs| ==>
              refs[i].Ref? && TicketTypeOf(Read(store, refs[i].ref)) == Return(r.value[i])
  {
    if refs == [] then Return([])
    else
      var last := refs[|refs| - 1];
      assert forall i :: 0 <= i < |refs| - 1 ==> refs[..|refs| - 1][i] == refs[i];
      match ResolveTicketTypes(refs[..|refs| - 1], store)
      case Throw => Throw
      case Return(types) =>
        if !last.Ref? then Throw
        else
          match TicketTypeOf(Read(store, last.ref))
          case Throw => Throw
          case Return(t) => Return(types + [t])
  }

  /** The values of a list of decoded ticket types none of which is null. */
  function Present(types: seq<Option<TicketType>>): (r: seq<TicketType>)
    requires forall i :: 0 <= i < |types| ==> types[i].Some?
    ensures |r| == |types|
    ensures forall i :: 0 <= i < |types| ==> types[i] == Some(r[i])
  {
    seq(|types|, i requires 0 <= i < |types| => types[i].value)
  }

  /** `roomFromObj`: null (None) when `display_name` is not a string or any
      permitted ticket type decodes to null; otherwise the room under the given id
      with one permitted ticket type per reference, in order. */
  function RoomFromObj(roomId: string, obj: Snapshot, store: Store): (r: Js<Option<Room>>)
    ensures !obj.Get("display_name").Str? ==> r == Return(None)
    ensures r.Throw? <==>
              && obj.Get("display_name").Str?
              && (!obj.Get("permitted_tickets").Arr? ||
                  exists i :: 0 <= i < |obj.Get("permitted_tickets").elems| &&
                              DereferenceFails(obj.Get("permitted_tickets").elems[i], store))
    ensures r == Return(None) <==>
              || !obj.Get("display_name").Str?
              || (&& obj.Get("permitted_tickets").Arr?
                  && (forall i :: 0 <= i < |obj.Get("permitted_tickets").elems| ==>
                        !DereferenceFails(obj.Get("permitted_tickets").elems[i], store))
                  && exists i :: 0 <= i < |obj.Get("permitted_tickets").elems| &&
                                 obj.Get("permitted_tickets").elems[i].Ref? &&
                                 TicketTypeOf(Read(store, obj.Get("permitted_tickets").elems[i].ref)) == Return(None))
    ensures r.Return? && r.value.Some? ==>
              var room := r.value.value;
              && room.roomId == roomId
              && Str(room.displayName) == obj.Get("display_name")
              && room.capacity == SafeAsNumber(obj.Get("capacity"))
              && obj.Get("permitted_tickets").Arr?
              && |room.permittedTickets| == |obj.Get("permitted_tickets").elems|
              && forall i :: 0 <= i < |room.permittedTickets| ==>
                   var ref := obj.Get("permitted_tickets").elems[i];
                   ref.Ref? && TicketTypeOf(Read(store, ref.ref)) == Return(Some(room.permittedTickets[i]))
  {
    var capacity := SafeAsNumber(obj.Get("capacity"));
    var name := SafeAsString(obj.Get("display_name"));
    if name.None? then Return(None)
    else
      var refs := obj.Get("permitted_tickets");
      if !refs.Arr? then Throw
      else
        match ResolveTicketTypes(refs.elems, store)
        case Throw => Throw
        case Return(types) =>
          if AnyOf(types, (it: Option<TicketType>) => it.None?) then Return(None)
          else Return(Some(Room(capacity, roomId, name.value, Present(types))))
  }

  /** A permitted-ticket reference whose document decodes to null makes the whole
      room null, provided no other reference raises a TypeError. */
  lemma NullTicketTypeMakesRoomNull(roomId: string, obj: Snapshot, store: Store, i: nat)
    requires obj.Get("display_name").Str?
    requires obj.Get("permitted_tickets").Arr?
    requires ResolveTicketTypes(obj.Get("permitted_tickets").elems, store).Return?
    requires i < |obj.Get("permitted_tickets").elems|
    requires obj.Get("permitted_tickets").elems[i].Ref?
    requires TicketTypeOf(Read(store, obj.Get("permitted_tickets").elems[i].ref)) == Return(None)
    ensures RoomFromObj(roomId, obj, store) == Return(None)
  {
    var types := ResolveTicketTypes(obj.Get("permitted_tickets").elems, store).value;
    assert types[i].None?;
  }
  /** The document a room is stored as: its name, its capacity when it has one, and
      a reference to each permitted ticket type in the ticket-type collection. */
  function RoomFields(room: Room, ticketTypesCollection: string): Fields
  {
    var refs := seq(|room.permittedTickets|, i requires 0 <= i < |room.permittedTickets| =>
                      Ref(DocRef(ticketTypesCollection, room.permittedTickets[i].ticketTypeId)));
    var fields := map["display_name" := Str(room.displayName), "permitted_tickets" := Arr(refs)];
    if room.capacity.Some? then fields["capacity" := Num(room.capacity.value)] else fields
  }

  /** Round trip: a stored room whose ticket-type documents decode to its permitted
      ticket types decodes back to the same room. */
  lemma RoomDocumentRoundTrip(room: Room, ref: DocRef, ticketTypesCollection: string, store: Store)
    requires forall i :: 0 <= i < |room.permittedTickets| ==>
               TicketTypeOf(Read(store, DocRef(ticketTypesCollection, room.permittedTickets[i].ticketTypeId)))
               == Return(Some(room.permittedTickets[i]))
    ensures RoomFromObj(room.roomId, Snapshot(ref, true, RoomFields(room, ticketTypesCollection)), store)
            == Return(Some(room))
  {
    var obj := Snapshot(ref, true, RoomFields(room, ticketTypesCollection));
    var refs := obj.Get("permitted_tickets").elems;
    assert forall i :: 0 <= i < |refs| ==> refs[i] == Ref(DocRef(ticketTypesCollection, room.permittedTickets[i].ticketTypeId));
    assert forall i :: 0 <= i < |refs| ==> !DereferenceFails(refs[i], store);
    var r := RoomFromObj(room.roomId, obj, store);
    assert r.Return? && r.value.Some?;
    assert r.value.value.permittedTickets == room.permittedTickets;
  }
}
