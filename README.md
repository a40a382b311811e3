# Maya reservation backend — verified model of the core

This project models the core of the Maya reservation backend, a Firebase service
for festival events. The backend does five things:

- It decodes guests, groups, ticket types and rooms from Firestore documents.
- It decides which groups a ticket type admits and which ticket types a room admits.
- It tracks where each user's group is: the current room, live per-room guest
  counters, and an append-only log of check-ins and check-outs.
- It modifies or cancels reservations against a capacity ledger.
- It mints tickets under fresh ids, binds wristbands once, and reads the bearer
  token from a request.

It is written in Dafny and proved with the Dafny verifier.

## How the model is built

- **JavaScript values** (`js.dfy`). A document field is a `Value`: undefined, null,
  a boolean, an integer number, a string, an array, an object, or a document
  reference. An operation that can raise a `TypeError` returns `Js<T>`, which is
  `Return(value)` or `Throw`. Examples are calling `.map` on undefined, calling
  `Object.keys(undefined)`, or calling `.get()` on something that is not a
  reference. A rejected promise is a `Throw` too.
- **Firestore** is a map from `DocRef(collection, id)` to fields. `Read` gives a
  snapshot, and a missing document reads as undefined in every field. The ticket
  and wristband operations take a `Firestore` object whose `docs` map they change
  in place; the tracker and the reservation store keep their documents in their
  own fields.
- **Pure decoders** are functions: `guestFromString`, `groupFromObject`,
  `ticketTypeFromDocument`, `roomFromObj`, `getCurrentRoom`, `ticketFromRef`,
  `getWristband` and `getIdToken`.
- **Code that loops** is a method with a loop:
  - `any`, `isSameGroup` and the loop of `ticketTypeFromDocument` are each
    proved equal to a function;
  - `findFirst`, `groupToMap` and `newRandomID` are proved against
    postconditions that say what they return.
- **The tracker** (`Track.ts`) is the class `Track.Tracker`. Its fields are the
  current-room table, the trackings log of each user, and the Realtime Database
  guest counters. The pure function `MoveGuests` specifies what a move does to
  the counters.
- **Reservation modification** (`Modify.ts`) is the class
  `Modify.ReservationStore`. Its fields are the reservation table of each user
  and the ledger calls made so far. The pure function `ModifyEffectOf` specifies
  the outcome.
- **Collaborators whose bodies are not in the core** become parameters:
  - the event decoder `eventFromDoc`;
  - the ledger's answer from `addTakenCapacity`;
  - the uuid source, a finite sequence `draws`;
  - whether the Realtime Database served each counter update.

Behaviour of the code that the model keeps on purpose:

- **`ticketTypeFromDocument`** (`api/models/TicketType.ts:29-39`):
  - The loop `for (const key in Object.keys(rg))` visits the indices "0" … "n-1"
    of the key array, and then reads `rg["0"]` … `rg["n-1"]`. So an object whose
    keys are not indices gives no groups (`MapKeyedGroupsAreSkipped`).
  - The guard `reservable_group === []` compares references and never holds. A
    ticket type with no groups is accepted (`EmptyReservableGroupAccepted`).
- **`roomFromObj`** (`api/models/Room.ts:30-31`): a permitted-ticket entry that
  is not a document reference raises a `TypeError`. The same is true of a
  `permitted_tickets` field that is not an array.
- **Ledger answers** (`Modify.ts:70-80`): the switch has no case for an
  `EventNotFound` answer, so that answer falls through and the modification goes
  ahead (`ModifyEventNotFoundIsSuccess`).
- **`checkInOut`** (`Track.ts:49-83`) returns true once the room admits the
  ticket type, even when a counter update failed.
- **`getIdToken`** (`Auth.ts:13-25`) returns the whole matched header, with the
  `Bearer ` prefix, not only the captured token (`TokenKeepsPrefix`).

## Model

| member | source | states |
|---|---|---|
| Util.Any | firebase/functions/src/util.ts:12-19 | true exactly when some element satisfies the predicate; false for an empty array |
| Util.FindFirst | firebase/functions/src/util.ts:3-10 | undefined exactly when no element satisfies the predicate; otherwise the element at the first index that does, every earlier element failing |
| Util.AnyOfAppend | firebase/functions/src/util.ts:12-19 | `any` over a concatenation is `any` over either part |
| SafeAs.SafeAsString | firebase/functions/src/SafeAs.ts:6-13 | a string exactly when the value is a string, and then that string; undefined for undefined, null and every other type |
| SafeAs.SafeAsStringIdempotent | firebase/functions/src/SafeAs.ts:6-13 | coercing an already coerced value changes nothing |
| Guests.TypeName | firebase/functions/src/api/models/Guest.ts:1-5 | every guest's `type` is one of the five names of `guestTypes` |
| Guests.GuestFromString | firebase/functions/src/api/models/Guest.ts:7-19 | non-null exactly for the five names of `guestTypes`, case-sensitive, and the guest's `type` is the input |
| Guests.GuestFromValue | firebase/functions/src/api/models/Group.ts:61-65 | a non-string `type` field never names a guest; a string names one exactly when it is in `guestTypes` |
| Guests.GuestFromStringRoundTrip | firebase/functions/src/api/models/Guest.ts:1-19 | parsing a guest's `type` gives back that guest |
| Guests.TypeNameInjective | firebase/functions/src/api/models/Guest.ts:1-5 | different guests have different `type` names |
| Groups.Count | firebase/functions/src/api/models/Group.ts:25-32 | the number of guests of a type is at most the group size, and 0 for a name outside `guestTypes` |
| Groups.GroupToMap | firebase/functions/src/api/models/Group.ts:25-32 | the map has a key exactly for the types present, and each value (missing read as 0) is the number of guests of that type |
| Groups.CountsSumToLength | firebase/functions/src/api/models/Group.ts:25-32 | the five per-type counts add up to the number of guests |
| Groups.CountIsMultiplicity | firebase/functions/src/api/models/Group.ts:25-32 | the count for a guest's type is that guest's multiplicity in the group |
| Groups.IsSameGroup | firebase/functions/src/api/models/Group.ts:10-23 | true exactly when the per-type counts agree for all five types, which is exactly when the two guest lists are permutations of each other |
| Groups.SameGroupIffSameGuests | firebase/functions/src/api/models/Group.ts:10-23 | equal counts for every type of `guestTypes` is the same as equal guest multisets |
| Groups.SameGroupIsEquivalence | firebase/functions/src/api/models/Group.ts:10-23 | `isSameGroup` is reflexive, symmetric and transitive |
| Groups.SameGroupIgnoresOrderAndHeadcount | firebase/functions/src/api/models/Group.ts:10-23 | reordering a group's guests or changing its stored headcount does not change the comparison |
| Groups.GuestEntry | firebase/functions/src/api/models/Group.ts:60-65 | reading `s["type"]` of an entry raises a TypeError exactly when the entry is undefined or null; a guest is kept only from an object whose `type` is that guest's name, and every recognised name is kept |
| Groups.KeptGuests | firebase/functions/src/api/models/Group.ts:60-68 | the filtered guest list is never longer than the entry list |
| Groups.GroupFromObject | firebase/functions/src/api/models/Group.ts:52-74 | null exactly for an undefined object or one without `all_guests`; a TypeError exactly for null, for an `all_guests` that is not an array, or for an undefined or null entry; otherwise the guests kept by the map/filter pass, in order, with headcount their number |
| Groups.KeptGuestsAppend | firebase/functions/src/api/models/Group.ts:60-68 | map-then-filter distributes over concatenation, and a TypeError from either part rejects the whole |
| Groups.DropsUnrecognised | firebase/functions/src/api/models/Group.ts:61-67 | every entry other than undefined and null whose `type` is missing or not a guest name is dropped, non-object entries included |
| Groups.KeptRecognised | firebase/functions/src/api/models/Group.ts:60-68 | an object entry whose `type` is a guest's name is kept as exactly that guest |
| Groups.KeptGuestsThrows | firebase/functions/src/api/models/Group.ts:60-64 | the map raises a TypeError exactly when some entry is undefined or null |
| Groups.GroupObjectRoundTrip | firebase/functions/src/api/models/Group.ts:52-74 | an object `{all_guests: [{type: …}, …]}` built from guests parses back to exactly those guests, in order, with headcount their number |
| Groups.KeptGuestsOfObjects | firebase/functions/src/api/models/Group.ts:60-68 | entries `{type: name}` of real guests are all kept, in order |
| Groups.GroupFromDocumentField | firebase/functions/src/api/models/Group.ts:38-50 | a non-array `all_guests` raises a TypeError; otherwise the guests are exactly the recognised names of the elements, in order (`RecognisedNames`), and the headcount is their number, at most the number of names |
| Groups.RecognisedNames | firebase/functions/src/api/models/Group.ts:40-44 | filtering the parsed names never lengthens the list |
| Groups.RecognisedNamesAppend | firebase/functions/src/api/models/Group.ts:40-44 | parse-then-filter distributes over concatenation, keeping order |
| Groups.RecognisedNamesSingle | firebase/functions/src/api/models/Group.ts:40-44 | one element is kept exactly when it is a recognised guest name, and then as the guest of that name |
| Groups.GroupFromDocumentRoundTrip | firebase/functions/src/api/models/Group.ts:38-50 | a document storing the guests' `type` names decodes back to those guests and their count |
| TicketTypes.IsAssignable | firebase/functions/src/api/models/TicketType.ts:14-16 | a ticket type is assignable to a group exactly when one of its reservable groups holds the same guests in any order |
| TicketTypes.NothingAssignableWithoutGroups | firebase/functions/src/api/models/TicketType.ts:14-16 | a ticket type without reservable groups admits no group |
| TicketTypes.IsAssignableIgnoresOrder | firebase/functions/src/api/models/TicketType.ts:14-16 | reordering the group's guests does not change assignability |
| TicketTypes.DecimalString | firebase/functions/src/api/models/TicketType.ts:29 | the key `for…in` hands out for an index is a non-empty string of decimal digits with no leading zero |
| TicketTypes.DecimalStringRoundTrip | firebase/functions/src/api/models/TicketType.ts:29-30 | the key handed out for index n denotes n |
| TicketTypes.DecimalStringInjective | firebase/functions/src/api/models/TicketType.ts:29-30 | different indices get different keys, so each index reads its own field |
| TicketTypes.ReservableEntries | firebase/functions/src/api/models/TicketType.ts:29-30 | `Object.keys` raises a TypeError exactly for undefined or null; an array's entries are visited in order |
| TicketTypes.ParseGroups | firebase/functions/src/api/models/TicketType.ts:29-34 | the pushed groups are never more than the entries visited |
| TicketTypes.TicketTypeOf | firebase/functions/src/api/models/TicketType.ts:22-52 | a TypeError exactly when reading or parsing `reservable_group` raises one; otherwise null exactly when `display_ticket_name` is not a string or `require_two_factor` is not a boolean; otherwise the document id, the parsed groups and the coerced fields |
| TicketTypes.TicketTypeFromDocument | firebase/functions/src/api/models/TicketType.ts:22-52 | the loop that pushes each parsed group computes exactly `TicketTypeOf` |
| TicketTypes.ParseGroupsThrows | firebase/functions/src/api/models/TicketType.ts:29-34 | decoding rejects exactly when `groupFromObject` raises a TypeError on some entry |
| TicketTypes.ParseGroupsAppend | firebase/functions/src/api/models/TicketType.ts:29-34 | parsing distributes over concatenation of the visited entries |
| TicketTypes.ParseGroupsSingle | firebase/functions/src/api/models/TicketType.ts:30-33 | one entry is pushed exactly when `groupFromObject` parses it, and skipped when it gives null |
| TicketTypes.EmptyReservableGroupAccepted | firebase/functions/src/api/models/TicketType.ts:36-39 | an empty `reservable_group` is accepted, because the `=== []` guard never holds |
| TicketTypes.MapKeyedGroupsAreSkipped | firebase/functions/src/api/models/TicketType.ts:29-30 | an object whose keys are not indices gives no groups |
| TicketTypes.AllUndefinedSkipped | firebase/functions/src/api/models/TicketType.ts:30-33 | entries that are all undefined push nothing |
| Rooms.IsEnterable | firebase/functions/src/api/models/Room.ts:49-51 | true exactly when the ticket's id is among the permitted ids; false for a room permitting nothing |
| Rooms.IsEnterableComparesIdsOnly | firebase/functions/src/api/models/Room.ts:49-51 | ticket types with the same id are admitted to the same rooms |
| Rooms.ResolveTicketTypes | firebase/functions/src/api/models/Room.ts:30-31 | a TypeError exactly when some entry is not a reference or its ticket-type decoding raises one; otherwise one decoded ticket type per reference, in order |
| Rooms.RoomFromObj | firebase/functions/src/api/models/Room.ts:21-47 | null exactly when `display_name` is not a string, or when no reference raises a TypeError and some ticket type decodes to null; a TypeError exactly when the name is a string and `permitted_tickets` is not an array or some dereference raises one; otherwise the room under the given id with the document's name, the coerced capacity and one decoded ticket type per reference |
| Rooms.RoomDocumentRoundTrip | firebase/functions/src/api/models/Room.ts:21-47 | a stored room whose ticket-type documents decode to its permitted ticket types decodes back to the same room |
| Rooms.NullTicketTypeMakesRoomNull | firebase/functions/src/api/models/Room.ts:33-38 | one permitted ticket type that decodes to null makes the room null |
| Auth.BearerMatch | firebase/functions/src/Auth.ts:18-19 | the pattern matches exactly a header of `Bearer ` followed by text without line terminators, and element 0 of the match is the whole header |
| Auth.GetIdToken | firebase/functions/src/Auth.ts:13-25 | a token exactly when the header is `Bearer ` followed by text without line terminators, and then the whole header |
| Auth.DotStarToEndIff | firebase/functions/src/Auth.ts:18 | `(.*)$` matches the rest exactly when it holds no line terminator |
| Auth.TokenKeepsPrefix | firebase/functions/src/Auth.ts:18-20 | `Bearer t` comes back whole, prefix included |
| Auth.BareBearerMatches | firebase/functions/src/Auth.ts:18-20 | a header of exactly `Bearer ` is accepted as is |
| Auth.LineTerminatorRejected | firebase/functions/src/Auth.ts:18-23 | a line terminator after the prefix makes the header unreadable |
| Auth.LowerCaseBearerRejected | firebase/functions/src/Auth.ts:18-23 | the prefix is case-sensitive |
| ReferenceCollection.NewRandomID | firebase/functions/src/ReferenceCollection.ts:42-49 | returns the first drawn id that names no document of the collection, without writing; none only when every draw is taken |
| ReferenceCollection.NewRandomIDDocument | firebase/functions/src/ReferenceCollection.ts:51-54 | a reference in the collection to a document that does not exist, under a drawn id |
| Tickets.TicketFromRef | firebase/functions/src/api/models/Ticket.ts:17-34 | a TypeError exactly when `event` or `type` is not a reference or the ticket type's decoding raises one; null exactly when the event or the ticket type decodes to null; otherwise the ticket under the reference's id with exactly the decoded ticket type and event |
| Tickets.RegisterTicketsToCollection | firebase/functions/src/api/models/Ticket.ts:44-52 | adds exactly one ticket document under a previously absent id, holding references to the ticket type and the event; no existing document changes |
| Tickets.DeleteTicketsFromCollection | firebase/functions/src/api/models/Ticket.ts:59-61 | removes exactly the ticket's document; nothing outside the tickets collection changes |
| Tickets.MintedTicketResolves | firebase/functions/src/api/models/Ticket.ts:17-52 | a minted ticket resolves to the ticket type and event it was minted for, under its id |
| Tickets.DeletedTicketDoesNotResolve | firebase/functions/src/api/models/Ticket.ts:17-22 | resolving a deleted ticket raises a TypeError |
| WristBands.BindWristband | firebase/functions/src/WristBand.ts:18-31 | binds exactly when the wristband has no document, storing reserver and ticket; otherwise refuses and writes nothing |
| WristBands.GetWristband | firebase/functions/src/WristBand.ts:38-58 | a wristband exactly when its document exists with string `reserverID` and `ticketID`, under the requested id with those values |
| WristBands.BindThenGet | firebase/functions/src/WristBand.ts:18-58 | reading a wristband right after binding it gives back its reserver and ticket |
| WristBands.BindTwice | firebase/functions/src/WristBand.ts:10-31 | a second bind of the same wristband is refused and the first binding stays readable |
| Track.OperationFromString | firebase/functions/src/Track.ts:14-23 | Enter exactly for "enter", Exit exactly for "exit", null for every other string |
| Track.OperationNameRoundTrip | firebase/functions/src/Track.ts:14-23 | the operation name a log entry records parses back to the operation |
| Track.FromRoomId | firebase/functions/src/Track.ts:58 | the previous room's id, or the string "undefined" when there is none |
| Track.CurrentRoomOf | firebase/functions/src/Track.ts:25-38 | null when the track document is missing or its `current_room` is falsy, or the referenced room document is missing; a reference to an existing room document gives that document decoded under its id; a TypeError exactly when `current_room` is a truthy non-reference or the room decode raises one |
| Track.CurrentRoomAfterUpdate | firebase/functions/src/Track.ts:25-38 | after the track document is overwritten, the current room is the new room's document, decoded under the new room's id |
| Track.AddGuests | firebase/functions/src/Track.ts:114-127 | the room's counter, a missing one read as 0, grows by the delta; every other counter is unchanged |
| Track.MoveGuestsOtherRooms | firebase/functions/src/Track.ts:85-96 | a move leaves the counters of all uninvolved rooms unchanged |
| Track.MoveGuestsSameRoom | firebase/functions/src/Track.ts:85-96 | re-entering the current room leaves its counter unchanged |
| Track.MoveGuestsTransfers | firebase/functions/src/Track.ts:85-96 | a move between two rooms shifts exactly the headcount from one counter to the other |
| Track.MoveGuestsFailedDecrement | firebase/functions/src/Track.ts:91-94 | a failed decrement skips the increment: no counter changes |
| Track.MoveGuestsFailedIncrement | firebase/functions/src/Track.ts:91-94 | a failed increment after a successful decrement loses the headcount from the previous room |
| Track.MoveGuestsFirstEntry | firebase/functions/src/Track.ts:89-94 | a first entry sets a new room's counter to the headcount |
| Track.EnterThenMoveScenario | firebase/functions/src/Track.ts:85-96 | entering R with 3 guests and then moving to R2 leaves R at 0 and R2 at 3 |
| Track.Tracker.UpdateGuestCount | firebase/functions/src/Track.ts:114-127 | succeeds exactly when the database is reachable, then adds the delta to the room's counter; otherwise changes nothing |
| Track.Tracker.UpdateCurrentRoom | firebase/functions/src/Track.ts:85-96 | overwrites the track document with the new room's reference and moves the stored headcount between counters as `MoveGuests` |
| Track.Tracker.RecordTrackEntry | firebase/functions/src/Track.ts:104-111 | appends exactly one entry to the user's log |
| Track.Tracker.CheckInOut | firebase/functions/src/Track.ts:49-83 | rejects when the current room cannot be read; refuses, changing nothing, a room that does not admit the reservation's ticket type; otherwise returns true, updates room and counters and logs one entry naming the operation, the previous room, the new room and the reservation |
| Modify.CapacityDelta | firebase/functions/src/Modify.ts:64 | the delta takes the reserved headcount to the new one; it is 0 exactly when they are equal |
| Modify.LedgerVerdict | firebase/functions/src/Modify.ts:70-83 | TRANSACTION_FAILED and CAPACITY_OVER become the same-named status; RESERVED and EVENT_NOT_FOUND let the change go ahead |
| Modify.RequestedDeltaAppend | firebase/functions/src/Modify.ts:69 | one more ledger call adds its delta to the event's requested total |
| Modify.ModifyMissingChangesNothing | firebase/functions/src/Modify.ts:56-58 | a missing reservation gives RESERVATION_NOT_FOUND and changes nothing |
| Modify.ModifyUnreadableChangesNothing | firebase/functions/src/Modify.ts:52-55 | an unreadable reservation gives INVALID_RESERVATION_DATA and changes nothing |
| Modify.ModifySameHeadcountSkipsLedger | firebase/functions/src/Modify.ts:64-66 | an unchanged headcount makes no ledger call, ignores the ledger and always goes ahead |
| Modify.ModifyLedgerRefusal | firebase/functions/src/Modify.ts:33-36 | a ledger refusal is returned as the same-named status after one call for the delta, and the reservation is untouched |
| Modify.ModifyEventNotFoundIsSuccess | firebase/functions/src/Modify.ts:70-83 | an EVENT_NOT_FOUND answer has exactly the effect of RESERVED |
| Modify.ModifyToZeroCancels | firebase/functions/src/Modify.ts:38-41 | a new headcount of 0 releases the whole reserved headcount, deletes the reservation and keeps the user's others, returning CANCELLED |
| Modify.ModifyRewrites | firebase/functions/src/Modify.ts:42-50 | otherwise the reservation is rewritten with the new group and `member_all` equal to its headcount, keeping id, event and ticket type, after asking for exactly the headcount difference; MODIFIED is returned |
| Modify.ModifyFrame | firebase/functions/src/Modify.ts:24-60 | other users' reservations are never touched and at most one ledger call is added |
| Modify.ModifyBackRestores | firebase/functions/src/Modify.ts:24-84 | modifying a reservation and then back to its original group restores the group, and the two ledger requests cancel out |
| Modify.ReservationStore.UpdateTakenCapacity | firebase/functions/src/Modify.ts:62-84 | calls the ledger only for a nonzero delta and returns its verdict, or null |
| Modify.ReservationStore.ModifyReservation | firebase/functions/src/Modify.ts:24-60 | the returned status, the new reservation table and the ledger calls are those of `ModifyEffectOf` |

## Left out

- `index.ts` and `EndPointUtil.ts`: the HTTP layer that parses requests and writes responses.
- `verifyToken` and `authenticated` in `Auth.ts`: they call the external identity provider.
- `Force.ts`, `LookUp.ts`, `User.ts`, `UserAuthentication.ts`, the response builders under `api/responces/`, `roomById`, `ticketByID` and `initCollection`: these are callers and wiring outside the core.
- `addTakenCapacity`: its body is not part of this model. Its answer is a parameter, and the model records each call it would receive.
- `eventFromDoc`: its body is not part of this model. It is a parameter of `Tickets.TicketFromRef` and is taken never to reject, so the TypeError condition of `Tickets.TicketFromRef` holds only under that assumption.
- `wristBandCollection`: `ReferenceCollection.ts:12` does not declare it in the `ReferenceCollection` type, though `WristBand.ts` reads it. The model's `Collections` datatype adds it as a field.
- `reservationFromDocument`: its body is not part of this model. A stored reservation either decodes to a `Reservation` or is unreadable.
- `reservationToCollection` and `cancelReservationFromCollection`: their bodies are not part of this model. They are taken to write the decoded record back, or delete it, in the same user's table under the reservation's own id. The source reads `reservations/{uid}/reservations` but writes through the `reservationCollection` parameter; the model treats the two as one table.
- SafeAs.SafeAsBoolean and SafeAs.SafeAsNumber: their bodies are not part of this model. They are taken to coerce like `safeAsString`: a value of the right type, or undefined.
- Floating-point numbers: numbers are integers, and a counter's stored value is taken to be a number.
- ReferenceCollection.NewRandomID: the source retries without bound on uuid collisions. The model draws from a finite sequence and returns none when every draw is taken.
- The members of `ReservationStatus` are not part of this model's sources: `ReservableEvent.ts` declares only the event type. The ledger's answers are taken to be `Reserved`, `CapacityOver`, `TransactionFailed` and `EventNotFound`.
- Firestore failures: every Firestore read and write succeeds in the model. In the source a rejected `get`, `set`, `add` or `delete` rejects the whole call. Examples are the writes at `Track.ts:86` and `Track.ts:110`, and the reservation writes at `Modify.ts:40` and `Modify.ts:43-49`. Only Realtime Database counter updates can fail in the model.
- `event_id` is declared a number in `ReservableEvent.ts`, but the model keeps it as a string, because it is used as a document id (`Ticket.ts:48`).
- Randomness, timestamps (`FieldValue.serverTimestamp()` on log entries), logging (`console.log`, `errorGCP`) and concurrency: these are left out. The model runs each operation on its own; transactions and interleavings between requests are not modelled.
- Track.Tracker.UpdateGuestCount: the read and the write of a counter are one step guarded by a reachability flag. A failure between the read and the write is not distinguished.
- `Promise.all` in `roomFromObj`: the ticket-type reads are taken in order. Concurrent reads give the same result because nothing is written.
- Inherited and non-enumerable JavaScript properties are not modelled. `Object.keys` of a document reference is modelled as yielding no entries. The entries it would yield are all undefined and dropped anyway.
- `Reservation.member_all` is kept as written and is not checked against the group's headcount.
